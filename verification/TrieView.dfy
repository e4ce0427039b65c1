/** Which tree a partly loaded trie stands for. */
module TrieViews {
  import opened Options
  import opened Bytes
  import opened Rlp
  import opened Trees
  import opened TrieNodes

  /**
   * What the nodes are judged against: the hash, the encodings that occur, the database, and
   * whether the database holds all that the nodes rely on.
   */
  datatype World = World(keccak: Hasher, known: iset<Bytes>, db: Database, complete: bool)

  ghost predicate Proper(w: World) {
    CollisionFree(w.keccak, w.known) && Addressed(w.keccak, w.known, w.db)
  }

  /** Everything below t can be loaded, and t itself. */
  ghost predicate Backed(w: World, t: Tree) {
    && Occurs(w.keccak, w.known, t)
    && (w.complete ==> Kept(w.keccak, w.db, Encoding(w.keccak, t)) && Stored(w.keccak, w.db, t))
  }

  /**
   * A cached hash is the right one; without the dirty flag, the node needs no writing. A node
   * that is neither hashed nor dirty is one that was embedded in its parent.
   */
  ghost predicate FlagsHold(w: World, f: Flags, t: Tree, root: bool) {
    if f.hash.Some? then
      && f.hash.value == w.keccak(Encoding(w.keccak, t))
      && (root || Large(w.keccak, t))
      && (!f.dirty ==> Backed(w, t))
    else f.dirty || (!root && !Large(w.keccak, t))
  }

  /** The node stands for the tree. Only a root may be known by its hash although it is short. */
  ghost predicate Represents(w: World, n: Node, t: Tree, root: bool)
    decreases t
  {
    match n
    case NilNode => t.Empty?
    case ValueNode(v) => t == Value(v)
    case HashNode(h) =>
      && Branching(t) && h == w.keccak(Encoding(w.keccak, t)) && (root || Large(w.keccak, t)) && Backed(w, t)
    case ShortNode(key, val, f) =>
      && t.Short? && t.key == key && Represents(w, val, t.val, false) && FlagsHold(w, f, t, root)
    case FullNode(children, f) =>
      && t.Full? && |children| == |t.children| && FlagsHold(w, f, t, root)
      && forall i :: 0 <= i < |children| ==> Represents(w, children[i], t.children[i], false)
  }

  // ------------------------------------------------------------ loading

  /** Below what a node relies on. */
  ghost predicate Below(w: World, t: Tree) {
    Occurs(w.keccak, w.known, t) && (w.complete ==> Stored(w.keccak, w.db, t))
  }

  lemma BelowParts(w: World, t: Tree)
    requires Below(w, t)
    ensures t.Short? ==> Below(w, t.val)
    ensures t.Full? ==> forall i :: 0 <= i < |t.children| ==> Below(w, t.children[i])
    ensures Large(w.keccak, t) ==> Backed(w, t)
  {
  }

  /** What the database hands out stands for the tree it was written from. */
  lemma {:induction false} OpenedRepresents(w: World, t: Tree, hash: Option<Bytes>, gen: nat, root: bool)
    requires Below(w, t) && Branching(t)
    requires
      if hash.Some? then hash.value == w.keccak(Encoding(w.keccak, t)) && (root || Large(w.keccak, t)) && Backed(w, t)
      else !root && !Large(w.keccak, t)
    ensures Represents(w, Opened(w.keccak, t, hash, gen), t, root)
    decreases t, 0
  {
    hide Below, Backed;
    BelowParts(w, t);
    match t
    case Short(key, val) =>
      OpenedChildRepresents(w, val, gen);
    case Full(children) =>
      forall i | 0 <= i < |children|
        ensures Represents(w, OpenedChild(w.keccak, children[i], gen), children[i], false)
      {
        OpenedChildRepresents(w, children[i], gen);
      }
  }

  lemma {:induction false} OpenedChildRepresents(w: World, t: Tree, gen: nat)
    requires Below(w, t)
    ensures Represents(w, OpenedChild(w.keccak, t, gen), t, false)
    decreases t, 1
  {
    hide Below, Backed;
    BelowParts(w, t);
    if Branching(t) && !Large(w.keccak, t) {
      OpenedRepresents(w, t, None, gen, false);
    }
  }

  /** The database's answer for a hash node, if it has one, is the encoding of the tree it stands for. */
  lemma FoundIsEncoding(w: World, t: Tree, h: Bytes)
    requires Proper(w) && Occurs(w.keccak, w.known, t) && Branching(t) && h == w.keccak(Encoding(w.keccak, t))
    ensures h in w.db ==> w.db[h] == Encoding(w.keccak, t)
  {
  }

  // ------------------------------------------------------------ following a key

  /** The tree and what is left of a key meet: a value at the key's end, a canonical tree before it. */
  predicate Reached(t: Tree, key: Key) {
    if key == [] then t.Empty? || Leaf(t) else Terminated(key) && Trees.Canonical(t)
  }

  /** The nodes on the way to a key are in memory. */
  predicate OnHand(n: Node, key: Key) {
    match n
    case HashNode(_) => false
    case ShortNode(k, val, _) => k <= key ==> OnHand(val, key[|k|..])
    case FullNode(children, _) => key == [] || key[0] >= |children| || OnHand(children[key[0]], key[1..])
    case _ => true
  }

  lemma ReachedShort(t: Tree, key: Key)
    requires t.Short? && Reached(t, key) && t.key <= key
    ensures Reached(t.val, key[|t.key|..]) && Get(t, key) == Get(t.val, key[|t.key|..])
  {
    ShortWhole(key, t.key, t.val);
    if |t.key| < |key| {
      SuffixTerminated(key, |t.key|);
    }
  }

  lemma ReachedFull(t: Tree, key: Key)
    requires t.Full? && Reached(t, key)
    ensures key != [] && key[0] < |t.children| && Reached(t.children[key[0]], key[1..])
    ensures Get(t, key) == Get(t.children[key[0]], key[1..])
  {
    if |key| > 1 {
      SuffixTerminated(key, 1);
    }
  }

  // ------------------------------------------------------------ building nodes

  /** A node that was just created: not hashed, and to be written. */
  predicate New(f: Flags) {
    f.hash.None? && f.dirty
  }

  lemma ShortRepresents(w: World, key: Key, val: Node, f: Flags, t: Tree, root: bool)
    requires New(f) && Represents(w, val, t, false)
    ensures Represents(w, ShortNode(key, val, f), Short(key, t), root)
  {
  }

  lemma ChildRepresents(w: World, children: seq<Node>, f: Flags, g: Flags, t: Tree, i: nat, child: Node, c: Tree,
                        root: bool)
    requires Represents(w, FullNode(children, f), t, root) && i < |children| && Represents(w, child, c, false) && New(g)
    ensures Represents(w, FullNode(children[i := child], g), Full(t.children[i := c]), root)
  {
    assert Full(t.children[i := c]).children == t.children[i := c];
  }

  function HangNode(key: Key, n: Node, f: Flags): Node {
    if key == [] then n else ShortNode(key, n, f)
  }

  function BranchNode(a: Key, x: Node, b: Key, y: Node, f: Flags): Node
    requires a != [] && b != []
  {
    FullNode(seq(17, _ => NilNode)[a[0] := HangNode(a[1..], x, f)][b[0] := HangNode(b[1..], y, f)], f)
  }

  lemma BranchRepresents(w: World, a: Key, x: Node, b: Key, y: Node, f: Flags, s: Tree, t: Tree, root: bool)
    requires a != [] && b != [] && New(f) && Represents(w, x, s, false) && Represents(w, y, t, false)
    ensures Represents(w, BranchNode(a, x, b, y, f), Branch(a, s, b, t), root)
  {
    var node, tree := BranchNode(a, x, b, y, f), Branch(a, s, b, t);
    if a[1..] != [] {
      ShortRepresents(w, a[1..], x, f, s, false);
    }
    if b[1..] != [] {
      ShortRepresents(w, b[1..], y, f, t, false);
    }
    forall i | 0 <= i < 17
      ensures Represents(w, node.children[i], tree.children[i], false)
    {
    }
  }

  // ------------------------------------------------------------ a growing database

  predicate Grown(a: Database, b: Database) {
    forall k :: k in a ==> k in b && b[k] == a[k]
  }

  lemma {:induction false} StoredGrown(h: Hasher, a: Database, b: Database, t: Tree)
    requires Grown(a, b) && Stored(h, a, t)
    ensures Stored(h, b, t)
  {
    match t
    case Empty =>
    case Value(_) =>
    case Short(_, val) => StoredGrown(h, a, b, val);
    case Full(children) =>
      forall i | 0 <= i < |children|
        ensures Stored(h, b, children[i])
      {
        StoredGrown(h, a, b, children[i]);
      }
  }

  /** The same, with more in the database. */
  ghost predicate Extends(v: World, w: World) {
    w.keccak == v.keccak && w.known == v.known && w.complete == v.complete && Grown(v.db, w.db)
  }

  lemma BackedGrown(v: World, w: World, t: Tree)
    requires Extends(v, w) && Backed(v, t)
    ensures Backed(w, t)
  {
    if v.complete {
      StoredGrown(v.keccak, v.db, w.db, t);
    }
  }

  lemma FlagsGrown(v: World, w: World, f: Flags, t: Tree, root: bool)
    requires Extends(v, w) && FlagsHold(v, f, t, root)
    ensures FlagsHold(w, f, t, root)
  {
    if f.hash.Some? && !f.dirty {
      BackedGrown(v, w, t);
    }
  }

  lemma {:induction false} RepresentsGrown(v: World, w: World, n: Node, t: Tree, root: bool)
    requires Extends(v, w) && Represents(v, n, t, root)
    ensures Represents(w, n, t, root)
    decreases t
  {
    hide Backed, FlagsHold;
    match n
    case NilNode =>
    case ValueNode(_) =>
    case HashNode(_) => BackedGrown(v, w, t);
    case ShortNode(_, val, f) =>
      RepresentsGrown(v, w, val, t.val, false);
      FlagsGrown(v, w, f, t, root);
    case FullNode(children, f) =>
      forall i | 0 <= i < |children|
        ensures Represents(w, children[i], t.children[i], false)
      {
        RepresentsGrown(v, w, children[i], t.children[i], false);
      }
      FlagsGrown(v, w, f, t, root);
  }

  ghost predicate AllRepresent(w: World, nodes: seq<Node>, trees: seq<Tree>) {
    |nodes| == |trees| && forall i :: 0 <= i < |nodes| ==> Represents(w, nodes[i], trees[i], false)
  }

  lemma AllRepresentGrown(v: World, w: World, nodes: seq<Node>, trees: seq<Tree>)
    requires Extends(v, w) && AllRepresent(v, nodes, trees)
    ensures AllRepresent(w, nodes, trees)
  {
    forall i | 0 <= i < |nodes|
      ensures Represents(w, nodes[i], trees[i], false)
    {
      RepresentsGrown(v, w, nodes[i], trees[i], false);
    }
  }

  /** Storing an encoding under its hash disturbs nothing, as there are no collisions. */
  lemma PutGrows(w: World, e: Bytes)
    requires Proper(w) && e in w.known
    ensures
      var after := w.db[w.keccak(e) := e];
      && Grown(w.db, after) && Addressed(w.keccak, w.known, after) && Kept(w.keccak, after, e)
  {
  }
}
