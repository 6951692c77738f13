/** What a committed `sendBalance` means for the account tree behind the
    root: the transition moves the amount from the sender's leaf to the
    recipient's leaf and touches nothing else, unless the call's witnesses
    hand over an explicit collision of the hash. */
module LedgerProofs {
  import opened Fields
  import opened Merkle
  import opened Ledger

  /** Soundness: if the committed root is the root of tree `t` and a call
      succeeds, then (barring a collision, which is returned) the sender's
      leaf in `t` is the claimed one, the debit did not wrap, the recipient
      slot of the debited tree is either empty with a zero claimed balance or
      holds the claimed leaf (an empty slot always forces a zero claim, since
      the witness then opens the root to the empty leaf and the new-account
      branch is taken), and the new root is the root of the tree with exactly
      those two leaves rewritten. */
  lemma SendBalanceSound(hash: Hasher, verify: Verifier, t: Tree, q: Transfer)
    returns (c: Option<Collision>)
    requires Perfect(t, WitnessLength)
    requires SendBalanceSpec(hash, verify, Root(hash, t), q).Ok?
    ensures c.Some? ==> IsCollision(hash, c.value)
    ensures c.None? ==>
      var s := Bits(q.senderWitness);
      var r := Bits(q.recipientWitness);
      var debited := Set(t, s, AccountLeaf(hash, Sub(q.senderBalanceBefore, q.sendAmount), q.senderPublicKey));
      && Get(t, s) == AccountLeaf(hash, q.senderBalanceBefore, q.senderPublicKey)
      && q.senderBalanceBefore >= q.sendAmount
      && Sub(q.senderBalanceBefore, q.sendAmount) == q.senderBalanceBefore - q.sendAmount
      && (|| Get(debited, r) == AccountLeaf(hash, q.recipientBalanceBefore, q.recipientPublicKey)
          || (Get(debited, r) == Zero && q.recipientBalanceBefore == Zero))
      && (Get(debited, r) == Zero ==> q.recipientBalanceBefore == Zero)
      && SendBalanceSpec(hash, verify, Root(hash, t), q).value
         == Root(hash, Set(debited, r,
              AccountLeaf(hash, Add(q.recipientBalanceBefore, q.sendAmount), q.recipientPublicKey)))
  {
    var sw, rw := q.senderWitness, q.recipientWitness;
    var senderLeaf := AccountLeaf(hash, q.senderBalanceBefore, q.senderPublicKey);
    c := Extract(hash, t, sw, senderLeaf);
    if c.Some? {
      return;
    }
    var s := Bits(sw);
    var debitedLeaf := AccountLeaf(hash, Sub(q.senderBalanceBefore, q.sendAmount), q.senderPublicKey);
    var debited := Set(t, s, debitedLeaf);
    WitnessUpdate(hash, t, s, debitedLeaf);
    assert RootSenderAfter(hash, q) == Root(hash, debited);

    var claimed := if RecipientIsNew(hash, q, Root(hash, debited)) then Zero
                   else AccountLeaf(hash, q.recipientBalanceBefore, q.recipientPublicKey);
    c := Extract(hash, debited, rw, claimed);
    if c.Some? {
      return;
    }
    WitnessAuthenticates(hash, debited, Bits(rw));
    var creditedLeaf := AccountLeaf(hash, Add(q.recipientBalanceBefore, q.sendAmount), q.recipientPublicKey);
    WitnessUpdate(hash, debited, Bits(rw), creditedLeaf);
  }

  /** Completeness: a client that reads the tree `t` behind the committed
      root, signs correctly, is solvent, and claims the recipient slot as it
      stands after the debit (empty with balance 0, or a nonzero existing
      leaf) succeeds when it takes the sender's witness from `t` and the
      recipient's witness from the tree with the debit already applied
      locally (the recipient is checked against the post-debit root); the
      new root is that of the tree with both leaves rewritten, and the only
      way it can fail is by exhibiting a hash collision, which is returned. */
  lemma SendBalanceComplete(
    hash: Hasher, verify: Verifier, t: Tree,
    s: seq<bool>, r: seq<bool>,
    senderBalanceBefore: Field, recipientBalanceBefore: Field,
    senderPublicKey: PublicKey, recipientPublicKey: PublicKey,
    senderSignature: Signature, sendAmount: Field)
    returns (c: Option<Collision>)
    requires Perfect(t, WitnessLength) && |s| == WitnessLength && |r| == WitnessLength
    requires verify(senderSignature, senderPublicKey, Message(Root(hash, t), sendAmount, recipientPublicKey))
    requires Get(t, s) == AccountLeaf(hash, senderBalanceBefore, senderPublicKey)
    requires senderBalanceBefore >= sendAmount
    requires var debited := Set(t, s, AccountLeaf(hash, Sub(senderBalanceBefore, sendAmount), senderPublicKey));
      || (Get(debited, r) == Zero && recipientBalanceBefore == Zero)
      || (Get(debited, r) == AccountLeaf(hash, recipientBalanceBefore, recipientPublicKey) && Get(debited, r) != Zero)
    ensures c.Some? ==> IsCollision(hash, c.value)
    ensures c.None? ==>
      var debited := Set(t, s, AccountLeaf(hash, Sub(senderBalanceBefore, sendAmount), senderPublicKey));
      var q := Transfer(WitnessOf(hash, t, s), WitnessOf(hash, debited, r),
                        senderBalanceBefore, recipientBalanceBefore,
                        senderPublicKey, recipientPublicKey, senderSignature, sendAmount);
      SendBalanceSpec(hash, verify, Root(hash, t), q)
        == Ok(Root(hash, Set(debited, r,
                AccountLeaf(hash, Add(recipientBalanceBefore, sendAmount), recipientPublicKey))))
  {
    var debitedLeaf := AccountLeaf(hash, Sub(senderBalanceBefore, sendAmount), senderPublicKey);
    var debited := Set(t, s, debitedLeaf);
    var sw := WitnessOf(hash, t, s);
    var rw := WitnessOf(hash, debited, r);
    var q := Transfer(sw, rw, senderBalanceBefore, recipientBalanceBefore,
                      senderPublicKey, recipientPublicKey, senderSignature, sendAmount);
    WitnessAuthenticates(hash, t, s);
    WitnessUpdate(hash, t, s, debitedLeaf);
    assert RootSenderAfter(hash, q) == Root(hash, debited);

    WitnessUpdate(hash, debited, r, Zero);
    if Get(debited, r) == Zero && recipientBalanceBefore == Zero {
      SetGet(debited, r);
      assert RecipientIsNew(hash, q, Root(hash, debited));
    } else if RecipientIsNew(hash, q, Root(hash, debited)) {
      // An existing (nonzero) leaf whose witness also opens to the empty leaf.
      c := Extract(hash, debited, rw, Zero);
      assert c.Some?;
      return;
    } else {
      WitnessAuthenticates(hash, debited, r);
    }
    c := None;
    var creditedLeaf := AccountLeaf(hash, Add(recipientBalanceBefore, sendAmount), recipientPublicKey);
    WitnessUpdate(hash, debited, r, creditedLeaf);
  }

  /** A ledger initialised with the all-empty tree pays nothing out: a
      transfer can succeed on its root only by exhibiting a hash collision or
      a sender leaf that hashes to the empty value 0. */
  lemma EmptyLedgerRejectsTransfers(hash: Hasher, verify: Verifier, q: Transfer)
    returns (c: Option<Collision>)
    requires SendBalanceSpec(hash, verify, Root(hash, EmptyTree(WitnessLength)), q).Ok?
    ensures c.Some? ==> IsCollision(hash, c.value)
    ensures c.None? ==> AccountLeaf(hash, q.senderBalanceBefore, q.senderPublicKey) == Zero
  {
    c := SendBalanceSound(hash, verify, EmptyTree(WitnessLength), q);
  }
}
