/** Merkle inclusion witnesses and the fixed-height binary Merkle tree they
    authenticate against. Internal nodes hash the ordered pair of their
    children's roots; a leaf's root is the leaf value itself, so an empty
    slot holds the field value 0. */
module Merkle {
  import opened Fields

  /** The node-combining hash (Poseidon over a tuple of field elements).
      It is a parameter everywhere: nothing below depends on which hash it is. */
  type Hasher = seq<Field> -> Field

  /** One level of an inclusion path: the sibling's root, and whether the
      node on the path is the LEFT child at this level. */
  datatype PathStep = PathStep(sibling: Field, isLeft: bool)

  /** An inclusion witness, leaf level first. */
  type Witness = seq<PathStep>

  /** The position bits a witness carries (`isLeft` per level, leaf first);
      they are also the leaf's address in a tree. */
  function Bits(w: Witness): (b: seq<bool>)
    ensures |b| == |w| && forall k :: 0 <= k < |w| ==> b[k] == w[k].isLeft
  {
    seq(|w|, k requires 0 <= k < |w| => w[k].isLeft)
  }

  /** The parent of `node` at one level: `node` goes on the left when it is
      the left child, otherwise the sibling does. */
  function Step(hash: Hasher, s: PathStep, node: Field): Field {
    if s.isLeft then hash([node, s.sibling]) else hash([s.sibling, node])
  }

  /** `calculateRoot(leaf)`: fold the path from the leaf upward, combining the
      running hash with each sibling in turn. */
  function CalculateRoot(hash: Hasher, w: Witness, leaf: Field): Field
    decreases |w|
  {
    if |w| == 0 then leaf else CalculateRoot(hash, w[1..], Step(hash, w[0], leaf))
  }

  /** The fold's last step is the top level: the root is the topmost sibling
      combined with the root recomputed from the lower levels. */
  lemma {:induction false} CalculateRootLast(hash: Hasher, w: Witness, leaf: Field)
    requires |w| > 0
    ensures CalculateRoot(hash, w, leaf)
         == Step(hash, w[|w| - 1], CalculateRoot(hash, w[..|w| - 1], leaf))
    decreases |w|
  {
    if |w| > 1 {
      var n := |w| - 1;
      CalculateRootLast(hash, w[1..], Step(hash, w[0], leaf));
      assert w[1..][..n - 1] == w[..n][1..];
    }
  }

  /** A Merkle tree: a leaf holds a field value, a node its two subtrees. */
  datatype Tree = Leaf(value: Field) | Node(left: Tree, right: Tree)

  /** Every leaf of `t` lies exactly `height` levels below the root. */
  predicate Perfect(t: Tree, height: nat) {
    match t
    case Leaf(_) => height == 0
    case Node(l, r) => height > 0 && Perfect(l, height - 1) && Perfect(r, height - 1)
  }

  /** The tree of the given height whose every slot is empty (0). */
  function EmptyTree(height: nat): (t: Tree)
    ensures Perfect(t, height)
    ensures forall bits: seq<bool> | |bits| == height :: Get(t, bits) == Zero
  {
    if height == 0 then Leaf(Zero) else Node(EmptyTree(height - 1), EmptyTree(height - 1))
  }

  /** The commitment to a whole tree. */
  function Root(hash: Hasher, t: Tree): Field {
    match t
    case Leaf(v) => v
    case Node(l, r) => hash([Root(hash, l), Root(hash, r)])
  }

  /** The leaf at address `bits` (leaf-level bit first, so the top level
      reads the last bit). */
  function Get(t: Tree, bits: seq<bool>): Field
    requires Perfect(t, |bits|)
    decreases |bits|
  {
    if |bits| == 0 then t.value
    else if bits[|bits| - 1] then Get(t.left, bits[..|bits| - 1])
    else Get(t.right, bits[..|bits| - 1])
  }

  /** The tree with the leaf at `bits` replaced by `v`. */
  function Set(t: Tree, bits: seq<bool>, v: Field): (u: Tree)
    requires Perfect(t, |bits|)
    ensures Perfect(u, |bits|)
    decreases |bits|
  {
    if |bits| == 0 then Leaf(v)
    else if bits[|bits| - 1] then Node(Set(t.left, bits[..|bits| - 1], v), t.right)
    else Node(t.left, Set(t.right, bits[..|bits| - 1], v))
  }

  /** The witness for the leaf at `bits`: the roots of the siblings along the
      path, leaf level first. */
  function WitnessOf(hash: Hasher, t: Tree, bits: seq<bool>): (w: Witness)
    requires Perfect(t, |bits|)
    ensures Bits(w) == bits
    decreases |bits|
  {
    if |bits| == 0 then []
    else
      var n := |bits| - 1;
      if bits[n] then WitnessOf(hash, t.left, bits[..n]) + [PathStep(Root(hash, t.right), true)]
      else WitnessOf(hash, t.right, bits[..n]) + [PathStep(Root(hash, t.left), false)]
  }

  /** Reading back a written leaf gives the written value; every other leaf
      is untouched. */
  lemma {:induction false} GetSet(t: Tree, bits: seq<bool>, v: Field, other: seq<bool>)
    requires Perfect(t, |bits|) && |other| == |bits|
    ensures Get(Set(t, bits, v), bits) == v
    ensures other != bits ==> Get(Set(t, bits, v), other) == Get(t, other)
    decreases |bits|
  {
    if |bits| > 0 {
      var n := |bits| - 1;
      GetSet(if bits[n] then t.left else t.right, bits[..n], v, other[..n]);
      assert other == other[..n] + [other[n]] && bits == bits[..n] + [bits[n]];
    }
  }

  /** Writing a leaf's own value back leaves the tree as it was. */
  lemma {:induction false} SetGet(t: Tree, bits: seq<bool>)
    requires Perfect(t, |bits|)
    ensures Set(t, bits, Get(t, bits)) == t
    decreases |bits|
  {
    if |bits| > 0 {
      var n := |bits| - 1;
      SetGet(if bits[n] then t.left else t.right, bits[..n]);
    }
  }

  /** Replacing one leaf changes only the nodes on its path, and the siblings
      of that path are the ones in the old witness: recomputing the old
      witness on a new leaf value gives the root of the updated tree. */
  lemma {:induction false} WitnessUpdate(hash: Hasher, t: Tree, bits: seq<bool>, v: Field)
    requires Perfect(t, |bits|)
    ensures CalculateRoot(hash, WitnessOf(hash, t, bits), v) == Root(hash, Set(t, bits, v))
    decreases |bits|
  {
    if |bits| > 0 {
      var n := |bits| - 1;
      var w := WitnessOf(hash, t, bits);
      var sub := if bits[n] then t.left else t.right;
      assert w[..n] == WitnessOf(hash, sub, bits[..n]);
      CalculateRootLast(hash, w, v);
      WitnessUpdate(hash, sub, bits[..n], v);
    }
  }

  /** Completeness of inclusion proofs: a tree's own witness authenticates
      the leaf it holds against the tree's root. */
  lemma WitnessAuthenticates(hash: Hasher, t: Tree, bits: seq<bool>)
    requires Perfect(t, |bits|)
    ensures CalculateRoot(hash, WitnessOf(hash, t, bits), Get(t, bits)) == Root(hash, t)
  {
    WitnessUpdate(hash, t, bits, Get(t, bits));
    SetGet(t, bits);
  }

  /** Two distinct hash inputs with equal hashes. */
  datatype Collision = Collision(x: seq<Field>, y: seq<Field>)

  predicate IsCollision(hash: Hasher, c: Collision) {
    c.x != c.y && hash(c.x) == hash(c.y)
  }

  datatype Option<T> = None | Some(value: T)

  /** Soundness of inclusion proofs (binding): when a witness recomputes a
      tree's root from a claimed leaf, either the claimed leaf is the one the
      tree holds at the witness's address and the witness is the tree's own,
      or the recomputation exhibits an explicit collision of the hash. */
  function Extract(hash: Hasher, t: Tree, w: Witness, leaf: Field): (c: Option<Collision>)
    requires Perfect(t, |w|) && CalculateRoot(hash, w, leaf) == Root(hash, t)
    ensures c.Some? ==> IsCollision(hash, c.value)
    ensures c.None? ==> leaf == Get(t, Bits(w)) && w == WitnessOf(hash, t, Bits(w))
    decreases |w|
  {
    if |w| == 0 then None
    else
      var n := |w| - 1;
      var below := CalculateRoot(hash, w[..n], leaf);
      CalculateRootLast(hash, w, leaf);
      var claimed := if w[n].isLeft then [below, w[n].sibling] else [w[n].sibling, below];
      var actual := [Root(hash, t.left), Root(hash, t.right)];
      if claimed != actual then Some(Collision(claimed, actual))
      else
        assert Bits(w)[..n] == Bits(w[..n]);
        assert w == w[..n] + [w[n]];
        Extract(hash, if w[n].isLeft then t.left else t.right, w[..n], leaf)
  }
}
