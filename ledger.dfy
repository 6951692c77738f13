/** The Merkle-anchored balance ledger: a contract whose only state is the
    root of a height-20 Merkle tree of account leaves, and whose
    `sendBalance` moves an amount from one account leaf to another. */
module Ledger {
  import opened Fields
  import opened Merkle

  /** A `MerkleWitness20` covers a tree of 20 levels counting the leaf level,
      so it has 19 path steps. */
  const WitnessLength: nat := 19

  type MerkleWitness20 = w: Witness | |w| == WitnessLength
    witness seq(WitnessLength, k => PathStep(Zero, true))

  /** A public key as a compressed curve point. */
  datatype PublicKey = PublicKey(x: Field, isOdd: bool)

  /** A Schnorr signature; its scalar part lives in the other curve's field. */
  datatype Signature = Signature(r: Field, s: nat)

  /** `Signature.verify(publicKey, message)`: a pass/fail predicate, kept
      abstract. */
  type Verifier = (Signature, PublicKey, seq<Field>) -> bool

  /** `publicKey.toFields()`: the x coordinate, then the parity bit as 0 or 1. */
  function KeyFields(k: PublicKey): (fs: seq<Field>)
    ensures |fs| == 2 && fs[0] == k.x && fs[1] == (if k.isOdd then 1 else 0)
  {
    [k.x, if k.isOdd then 1 else 0]
  }

  /** An account leaf: the hash of the balance and of the owner's key fields. */
  function AccountLeaf(hash: Hasher, balance: Field, owner: PublicKey): Field {
    hash([balance, hash(KeyFields(owner))])
  }

  /** What the sender signs: the current root, the amount, then the
      recipient's key fields. */
  function Message(root: Field, amount: Field, recipient: PublicKey): (m: seq<Field>)
    ensures |m| == 4 && m[0] == root && m[1] == amount && m[2..] == KeyFields(recipient)
  {
    [root, amount] + KeyFields(recipient)
  }

  /** The signed message determines what it was built from: a signature over
      it commits the sender to one root, one amount and one recipient key. */
  lemma MessageInjective(
    root1: Field, amount1: Field, recipient1: PublicKey,
    root2: Field, amount2: Field, recipient2: PublicKey)
    requires Message(root1, amount1, recipient1) == Message(root2, amount2, recipient2)
    ensures root1 == root2 && amount1 == amount2 && recipient1 == recipient2
  {
  }

  /** The arguments of one `sendBalance` call. */
  datatype Transfer = Transfer(
    senderWitness: MerkleWitness20,
    recipientWitness: MerkleWitness20,
    senderBalanceBefore: Field,
    recipientBalanceBefore: Field,
    senderPublicKey: PublicKey,
    recipientPublicKey: PublicKey,
    senderSignature: Signature,
    sendAmount: Field)

  /** Which of `sendBalance`'s assertions aborted the call. */
  datatype TransferError =
    | BadSignature
    | SenderNotInLedger
    | InsufficientBalance
    | RecipientPreconditionFailed

  datatype Result<T> = Ok(value: T) | Err(error: TransferError)

  /** The root after the sender's leaf is debited, recomputed on the sender's
      witness. */
  function RootSenderAfter(hash: Hasher, q: Transfer): Field {
    CalculateRoot(hash, q.senderWitness,
      AccountLeaf(hash, Sub(q.senderBalanceBefore, q.sendAmount), q.senderPublicKey))
  }

  /** The recipient is a new account when its witness, applied to the empty
      leaf 0, reproduces the post-debit root. */
  predicate RecipientIsNew(hash: Hasher, q: Transfer, rootSenderAfter: Field) {
    CalculateRoot(hash, q.recipientWitness, Zero) == rootSenderAfter
  }

  /** The recipient precondition: a new account must claim a zero balance;
      an existing one must prove its claimed leaf under the post-debit root. */
  predicate RecipientPasses(hash: Hasher, q: Transfer, rootSenderAfter: Field) {
    if RecipientIsNew(hash, q, rootSenderAfter) then q.recipientBalanceBefore == Zero
    else CalculateRoot(hash, q.recipientWitness,
           AccountLeaf(hash, q.recipientBalanceBefore, q.recipientPublicKey)) == rootSenderAfter
  }

  /** The root written on success: the recipient's witness applied to the
      credited leaf. */
  function RootRecipientAfter(hash: Hasher, q: Transfer): Field {
    CalculateRoot(hash, q.recipientWitness,
      AccountLeaf(hash, Add(q.recipientBalanceBefore, q.sendAmount), q.recipientPublicKey))
  }

  /** The whole `sendBalance` transition on the committed root `root`: the
      new root, or the first assertion that fails. */
  function SendBalanceSpec(hash: Hasher, verify: Verifier, root: Field, q: Transfer)
    : (r: Result<Field>)
    ensures r == Err(BadSignature)
        <==> !verify(q.senderSignature, q.senderPublicKey, Message(root, q.sendAmount, q.recipientPublicKey))
    ensures r == Err(SenderNotInLedger)
        <==> verify(q.senderSignature, q.senderPublicKey, Message(root, q.sendAmount, q.recipientPublicKey))
             && CalculateRoot(hash, q.senderWitness,
                  AccountLeaf(hash, q.senderBalanceBefore, q.senderPublicKey)) != root
    ensures r.Ok? <==>
      verify(q.senderSignature, q.senderPublicKey, Message(root, q.sendAmount, q.recipientPublicKey))
      && CalculateRoot(hash, q.senderWitness,
           AccountLeaf(hash, q.senderBalanceBefore, q.senderPublicKey)) == root
      && q.senderBalanceBefore >= q.sendAmount
      && RecipientPasses(hash, q, RootSenderAfter(hash, q))
    ensures r == Err(InsufficientBalance) ==> q.sendAmount > q.senderBalanceBefore
    ensures r.Ok? ==> Sub(q.senderBalanceBefore, q.sendAmount) == q.senderBalanceBefore - q.sendAmount
    ensures r.Ok? && RecipientIsNew(hash, q, RootSenderAfter(hash, q)) ==>
      && q.recipientBalanceBefore == 0
      && r.value == CalculateRoot(hash, q.recipientWitness,
                      AccountLeaf(hash, q.sendAmount, q.recipientPublicKey))
    ensures r.Ok? ==> r.value == RootRecipientAfter(hash, q)
  {
    if !verify(q.senderSignature, q.senderPublicKey, Message(root, q.sendAmount, q.recipientPublicKey)) then
      Err(BadSignature)
    else if CalculateRoot(hash, q.senderWitness,
              AccountLeaf(hash, q.senderBalanceBefore, q.senderPublicKey)) != root then
      Err(SenderNotInLedger)
    else if !Gte(q.senderBalanceBefore, q.sendAmount) then
      Err(InsufficientBalance)
    else if !RecipientPasses(hash, q, RootSenderAfter(hash, q)) then
      Err(RecipientPreconditionFailed)
    else
      Ok(RootRecipientAfter(hash, q))
  }

  /** What a call to `sendBalance` did. */
  datatype Outcome = Committed | Rejected(reason: TransferError)

  /** The on-chain contract. Its one piece of state is `ledgerRoot`; the hash
      and the signature check are fixed when it is created. */
  class LedgerContract {
    const hash: Hasher
    const verify: Verifier
    var ledgerRoot: Field

    /** A freshly deployed contract's state field holds 0. */
    constructor (hash: Hasher, verify: Verifier)
      ensures this.hash == hash && this.verify == verify
      ensures ledgerRoot == Zero
    {
      this.hash := hash;
      this.verify := verify;
      ledgerRoot := Zero;
    }

    /** `init`: commit the given root. */
    method Init(initialLedgerRoot: Field)
      modifies this
      ensures ledgerRoot == initialLedgerRoot
    {
      ledgerRoot := initialLedgerRoot;
    }

    /** `sendBalance`: every check runs before the single write to
        `ledgerRoot`, so a rejected call leaves the root as it was. */
    method SendBalance(
      senderWitness: MerkleWitness20,
      recipientWitness: MerkleWitness20,
      senderBalanceBefore: Field,
      recipientBalanceBefore: Field,
      senderPublicKey: PublicKey,
      recipientPublicKey: PublicKey,
      senderSignature: Signature,
      sendAmount: Field)
      returns (outcome: Outcome)
      modifies this
      ensures var r := SendBalanceSpec(hash, verify, old(ledgerRoot),
                Transfer(senderWitness, recipientWitness, senderBalanceBefore, recipientBalanceBefore,
                         senderPublicKey, recipientPublicKey, senderSignature, sendAmount));
              match r
              case Ok(newRoot) => outcome == Committed && ledgerRoot == newRoot
              case Err(e) => outcome == Rejected(e) && ledgerRoot == old(ledgerRoot)
    {
      var initialLedgerRoot := ledgerRoot;

      if !verify(senderSignature, senderPublicKey,
                 Message(initialLedgerRoot, sendAmount, recipientPublicKey)) {
        return Rejected(BadSignature);
      }

      var rootSenderBefore := CalculateRoot(hash, senderWitness,
        AccountLeaf(hash, senderBalanceBefore, senderPublicKey));
      if rootSenderBefore != initialLedgerRoot {
        return Rejected(SenderNotInLedger);
      }

      if !Gte(senderBalanceBefore, sendAmount) {
        return Rejected(InsufficientBalance);
      }

      var rootSenderAfter := CalculateRoot(hash, senderWitness,
        AccountLeaf(hash, Sub(senderBalanceBefore, sendAmount), senderPublicKey));

      var rootRecipientBefore := CalculateRoot(hash, recipientWitness,
        AccountLeaf(hash, recipientBalanceBefore, recipientPublicKey));
      var rootRecipientBeforeEmpty := CalculateRoot(hash, recipientWitness, Zero);
      var recipientAccountNew := rootSenderAfter == rootRecipientBeforeEmpty;

      var recipientAccountPassesRequirements :=
        if recipientAccountNew then recipientBalanceBefore == Zero
        else rootSenderAfter == rootRecipientBefore;
      if !recipientAccountPassesRequirements {
        return Rejected(RecipientPreconditionFailed);
      }

      var rootRecipientAfter := CalculateRoot(hash, recipientWitness,
        AccountLeaf(hash, Add(recipientBalanceBefore, sendAmount), recipientPublicKey));

      ledgerRoot := rootRecipientAfter;
      outcome := Committed;
    }
  }
}
