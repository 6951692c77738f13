# Merkle-anchored balance ledger

This project models `LedgerContract`, a zkApp smart contract whose only on-chain state is `ledgerRoot`: the root of a height-20 Merkle tree of account leaves. Each leaf is `hash([balance, hash(ownerKey.toFields())])`, and an empty slot holds the field value 0.

- `init` commits a given root.
- `sendBalance` moves `sendAmount` from a sender's leaf to a recipient's leaf. It runs these checks in order:
  1. the sender's signature over `[root, amount] ++ recipientKey.toFields()`;
  2. the sender's claimed leaf, authenticated against the current root by a Merkle witness;
  3. solvency (`senderBalanceBefore >= sendAmount`).
- It then recomputes the root with the sender debited. It decides whether the recipient is new by opening the recipient witness on the empty leaf 0 against that post-debit root. A new recipient must claim balance 0. An existing recipient must authenticate its claimed leaf against the post-debit root.
- Only after every check does it write the root with the recipient credited. A failed call leaves `ledgerRoot` as it was.

Modules:

- `Fields` (fields.dfy): native field elements. Integers modulo the Pallas base-field prime, with `add`, `sub` and `assertGte`.
- `Merkle` (merkle.dfy):
  - inclusion witnesses (`PathStep` = sibling root plus `isLeft` bit, leaf level first);
  - `CalculateRoot`, the leaf-to-root fold that `MerkleWitness.calculateRoot` performs;
  - a perfect binary `Tree` with `Root`, `Get`, `Set` and `WitnessOf`;
  - their algebra;
  - `Extract`, which states the binding of witnesses: a witness that opens a tree's root to a leaf is either the tree's own witness for the leaf the tree holds, or it hands over an explicit hash collision.
- `Ledger` (ledger.dfy):
  - keys and messages;
  - `SendBalanceSpec`, the pure transition on a root;
  - the class `LedgerContract` with the mutable `ledgerRoot` field and the methods `Init` and `SendBalance`. `SendBalance` runs the checks step by step with early rejections and one final write. It is proved equal to `SendBalanceSpec`, and it leaves the root unchanged on every rejection.
- `LedgerProofs` (ledger_proofs.dfy): what a committed transfer means for the tree behind the root. It has three theorems.
  - Soundness: a successful call on `Root(t)` rewrites exactly the sender's leaf (debited, no wrap) and the recipient's leaf (credited) of `t`. Otherwise the witnesses yield a collision.
  - Completeness: an honest client succeeds with that root, unless a collision is exhibited. It takes the sender's witness from the tree it read, and the recipient's witness from that tree after applying the debit locally, because the contract checks the recipient against the post-debit root. A recipient witness taken from the unmodified tree is rejected whenever the debit changes the root.
  - A ledger initialised with the all-empty tree cannot pay out, unless the sender leaf hashes to 0 or a collision is exhibited.

Poseidon is a parameter `hash: seq<Field> -> Field`, and `Signature.verify` is a parameter `verify`. Every result holds for every such function. A perfectly injective hash into a finite field cannot exist. So binding is never assumed. It is stated as collision extraction: the model computes the colliding pair of inputs.

The recipient credit `recipientBalanceBefore.add(sendAmount)` is unguarded field addition. A recipient balance within `sendAmount` of the modulus wraps to a small value. `Fields.Add` models this exactly. The sum of the two balances is still conserved modulo the prime (`Fields.TransferConservesSum`).

## Model

| member | source | states |
|---|---|---|
| Fields.Add | 05-common-types-and-functions/src/LedgerContract.ts:96-98 | `add` is integer addition when the sum is below the modulus, and the sum minus the modulus otherwise |
| Fields.Sub | 05-common-types-and-functions/src/LedgerContract.ts:69-71 | `sub` is exact integer subtraction when the minuend is at least the subtrahend, and wraps by adding the modulus otherwise |
| Fields.SubAddCancel | 05-common-types-and-functions/src/LedgerContract.ts:69-98 | debiting an amount and adding it back restores the balance |
| Fields.TransferConservesSum | 05-common-types-and-functions/src/LedgerContract.ts:69-98 | the sender's debit plus the recipient's credit preserves the field sum of the two balances |
| Merkle.CalculateRootLast | 05-common-types-and-functions/src/LedgerContract.ts:63-64 | the leaf-first fold of `calculateRoot` ends by combining the top sibling with the root of the lower levels |
| Merkle.EmptyTree | 05-common-types-and-functions/src/LedgerContract.ts:76 | the all-empty tree has the requested height and every slot reads as the empty sentinel 0 |
| Merkle.Set | 05-common-types-and-functions/src/LedgerContract.ts:70-71 | replacing a leaf keeps the tree perfect at the same height |
| Merkle.WitnessOf | 05-common-types-and-functions/src/LedgerContract.ts:16 | a tree's witness for an address carries exactly that address's bits |
| Merkle.GetSet | 05-common-types-and-functions/src/LedgerContract.ts:96-101 | after a leaf is written, reading it gives the written value and every other address is unchanged |
| Merkle.SetGet | 05-common-types-and-functions/src/LedgerContract.ts:76-78 | writing a leaf's own value back leaves the tree unchanged |
| Merkle.WitnessUpdate | 05-common-types-and-functions/src/LedgerContract.ts:69-71 | recomputing the old witness on a new leaf gives the root of the tree with that one leaf replaced |
| Merkle.WitnessAuthenticates | 05-common-types-and-functions/src/LedgerContract.ts:62-65 | a tree's own witness opens its root to the leaf the tree holds |
| Merkle.Extract | 05-common-types-and-functions/src/LedgerContract.ts:62-65 | a witness that opens a tree's root to a leaf yields one of two things: a hash collision, or proof that the leaf is the tree's leaf at the witness's address and the witness is the tree's own |
| Ledger.MessageInjective | 05-common-types-and-functions/src/LedgerContract.ts:57-60 | two equal signed messages come from the same root, the same amount and the same recipient key, so the sender's signature commits to all three |
| Ledger.SendBalanceSpec | 05-common-types-and-functions/src/LedgerContract.ts:53-101 | rejects with BadSignature exactly when the signature over the message fails. Rejects with SenderNotInLedger exactly when the signature passes but the sender witness does not open the current root to the claimed sender leaf. InsufficientBalance only when the amount exceeds the balance. Succeeds exactly when signature, sender inclusion, solvency and the recipient new/existing condition (against the post-debit root) all hold. On success the debit did not wrap, a new recipient claimed 0, and the result is the recipient witness applied to the credited leaf |
| LedgerProofs.EmptyLedgerRejectsTransfers | 05-common-types-and-functions/src/LedgerContract.ts:62-65 | on the root of the all-empty tree, a successful transfer yields either a hash collision or a sender leaf equal to the empty value 0 |
| Ledger.LedgerContract.constructor | 05-common-types-and-functions/src/LedgerContract.ts:28 | the contract's one state field starts at 0, and the hash and signature check are the given ones |
| Ledger.LedgerContract.Init | 05-common-types-and-functions/src/LedgerContract.ts:38-40 | `ledgerRoot` becomes exactly the given root |
| Ledger.LedgerContract.SendBalance | 05-common-types-and-functions/src/LedgerContract.ts:42-102 | the outcome and new `ledgerRoot` are those of `SendBalanceSpec` on the old root. On any rejection `ledgerRoot` is unchanged (all-or-nothing) |
| LedgerProofs.SendBalanceSound | 05-common-types-and-functions/src/LedgerContract.ts:53-101 | if the committed root is `Root(t)` and the call succeeds, then either a hash collision is returned, or all of the following hold: the sender leaf of `t` is the claimed one; the debit is exact; the recipient slot after the debit is either the claimed leaf, or empty with claimed balance 0, and an empty slot always forces a claimed balance of 0; the new root is `Root(t)` with exactly the sender leaf debited and the recipient leaf credited |
| LedgerProofs.SendBalanceComplete | 05-common-types-and-functions/src/LedgerContract.ts:74-94 | an honest, solvent, correctly signing client that takes the sender's witness from the tree it read and the recipient's witness from that tree with the debit already applied gets the new root of the tree with both leaves rewritten. This holds for a new recipient (empty slot, claimed 0) and for an existing one (nonzero leaf). Otherwise a hash collision is returned |

## Left out

- `deploy` and `setPermissions` (LedgerContract.ts:30-36): the blockchain permission layer. The fresh contract's zeroed state is kept, in the constructor.
- `this.ledgerRoot.assertEquals(initialLedgerRoot)` (line 54): the on-chain precondition that the root read when proving is still the root when the transaction is applied. In this sequential model, reading and applying happen in one call, so it always holds. Concurrent clients racing on the root are not modelled.
- Poseidon internals and signature cryptography: both are function parameters, constrained by nothing.
- The zero-knowledge circuit machinery. `Circuit.if` evaluates both branches in the circuit; here it is an ordinary `if` on the same two candidate conditions.
- `Fields.Gte`: `assertGte` is modelled as integer comparison of canonical representatives. The circuit-level comparison gadget and its bit-length limits are not modelled.
- The rejection reasons (`BadSignature`, `SenderNotInLedger`, `InsufficientBalance`, `RecipientPreconditionFailed`) only name which assertion aborted. The contract itself simply aborts the transaction.
- 06-offchain-storage/contracts/src/main.ts: an asynchronous driver (local blockchain setup, HTTP calls to a storage server, transaction submission, an endless loop). Its only local rule, the counter leaf (empty gives 1, otherwise prior + 3), is tangled with that I/O. `NumberTreeContract` and the off-chain storage helpers are not part of this model.
- 01-hello-world/src/main.ts: a deploy-and-send script. The `Square` contract it drives is not part of this model.
- MerkleTree construction from an index-to-value map, and numeric leaf indices: leaves are addressed by their witness bits. The library's tree class is not part of this model.
