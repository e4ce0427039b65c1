/**
 * The trie of trie/trie.go and trie/hasher.go: nodes are loaded from the
 * database on the way, and collapsed into hashes when the trie is committed.
 * It refines the fully loaded tree.
 */
module Tries {
  import opened Options
  import opened Bytes
  import opened Rlp
  import opened Trees
  import opened KeyEncodings
  import opened TrieNodes
  import opened TrieViews
  import EncodeBuffers
  import YellowPaper

  /** A node as its parent refers to it. */
  datatype Collapsed = ByHash(hash: Bytes) | Whole(item: Item)

  function ItemOf(c: Collapsed): Item {
    if c.ByHash? then Str(c.hash) else c.item
  }

  /** Short nodes are embedded, except at the root. */
  function Collapsing(h: Hasher, t: Tree, force: bool): Collapsed {
    if Large(h, t) || force then ByHash(h(Encoding(h, t))) else Whole(NodeItem(h, t))
  }

  class Trie {
    const keccak: Hasher
    ghost const known: iset<Bytes>
    var db: Database
    var root: Node
    var cachegen: nat
    var cachelimit: nat
    // The tree the nodes stand for, and whether the database holds all of them.
    ghost var tree: Tree
    ghost var complete: bool

    ghost function View(): World
      reads this`db, this`complete
    {
      World(keccak, known, db, complete)
    }

    ghost predicate Valid()
      reads this
    {
      Proper(View()) && Represents(View(), root, tree, true) && Trees.Canonical(tree)
    }

    function NewFlag(): Flags
      reads this`cachegen
    {
      Flags(None, cachegen, true)
    }

    // ------------------------------------------------------------ loading

    /** The node behind a hash, unless the database does not have it. */
    method ResolveHash(h: Bytes, ghost t: Tree, ghost atRoot: bool) returns (r: Option<Node>)
      requires Proper(View()) && Represents(View(), HashNode(h), t, atRoot) && Trees.Canonical(t)
      ensures r.None? <==> h !in db
      ensures complete ==> r.Some?
      ensures r.Some? ==> Represents(View(), r.value, t, atRoot) && (r.value.ShortNode? || r.value.FullNode?)
    {
      if h !in db {
        return None;
      }
      ghost var e := Encoding(keccak, t);
      FoundIsEncoding(View(), t, h);
      assert e + [] == e;
      DecodeEncoding(keccak, known, t, Some(h), [], cachegen);
      OpenedRepresents(View(), t, Some(h), cachegen, atRoot);
      var over;
      r, over := ParseNode(Some(h), db[h], cachegen);
    }

    // ------------------------------------------------------------ lookup

    method GetNode(n: Node, key: Key, pos: nat, ghost t: Tree, ghost atRoot: bool)
      returns (value: Option<Bytes>, newnode: Node, didResolve: bool, missing: bool)
      requires Proper(View()) && Represents(View(), n, t, atRoot)
      requires pos <= |key| && Reached(t, key[pos..])
      ensures missing ==> !complete
      ensures !missing ==> value == Get(t, key[pos..]) && Represents(View(), newnode, t, atRoot)
      ensures !missing ==> (didResolve <==> newnode != n) && OnHand(newnode, key[pos..])
      decreases t, if n.HashNode? then 1 else 0
    {
      hide Proper, FlagsHold, Backed, Get, Reached;
      match n
      case NilNode =>
        GetEmpty(key[pos..]);
        return None, NilNode, false, false;
      case ValueNode(v) =>
        GetValue(v, key[pos..]);
        return Some(v), n, false, false;
      case ShortNode(k, val, flags) =>
        assert pos + |k| <= |key| ==> key[pos..][..|k|] == key[pos..pos + |k|];
        if |key| - pos < |k| || k != key[pos..pos + |k|] {
          GetMismatch(t, key[pos..]);
          return None, n, false, false;
        }
        assert k <= key[pos..] && key[pos..][|k|..] == key[pos + |k|..];
        ReachedShort(t, key[pos..]);
        value, newnode, didResolve, missing := GetNode(val, key, pos + |k|, t.val, false);
        if !missing && didResolve {
          newnode := ShortNode(k, newnode, flags.(gen := cachegen));
          SameFlags(View(), flags, cachegen, t, atRoot);
        } else {
          newnode := n;
        }
      case FullNode(children, flags) =>
        ReachedFull(t, key[pos..]);
        assert key[pos..][0] == key[pos] && key[pos..][1..] == key[pos + 1..];
        value, newnode, didResolve, missing := GetNode(children[key[pos]], key, pos + 1, t.children[key[pos]], false);
        if !missing && didResolve {
          newnode := FullNode(children[key[pos] := newnode], flags.(gen := cachegen));
          SameFlags(View(), flags, cachegen, t, atRoot);
        } else {
          newnode := n;
        }
      case HashNode(h) =>
        ReachedBranching(t, key[pos..]);
        var child := ResolveHash(h, t, atRoot);
        if child.None? {
          return None, n, true, true;
        }
        value, newnode, didResolve, missing := GetNode(child.value, key, pos, t, atRoot);
        didResolve := true;
    }

    /** The value stored under a byte key; loading nodes on the way does not change the tree. */
    method TryGet(key: Bytes) returns (value: Option<Bytes>, missing: bool)
      requires Valid()
      modifies this`root
      ensures Valid()
      ensures missing ==> !complete
      ensures !missing ==> value == Get(tree, Hex(key)) && OnHand(root, Hex(key))
    {
      var hex := KeybytesToHex(key);
      var k := hex[..];
      assert k[0..] == k;
      var newroot, didResolve;
      value, newroot, didResolve, missing := GetNode(root, k, 0, tree, true);
      if !missing && didResolve {
        root := newroot;
      }
    }

    // ------------------------------------------------------------ insertion

    method InsertNode(n: Node, key: Key, value: Bytes, ghost t: Tree, ghost atRoot: bool)
      returns (dirty: bool, nn: Node, missing: bool)
      requires Proper(View()) && Represents(View(), n, t, atRoot)
      requires Reached(t, key) && value != []
      ensures missing ==> !complete && !dirty
      ensures !missing ==> dirty == (Get(t, key) != Some(value))
      ensures !missing ==> Represents(View(), nn, Insert(t, key, value), atRoot)
      ensures !missing && !dirty && !n.HashNode? ==> nn == n
      decreases t, if n.HashNode? then 1 else 0
    {
      hide Proper, FlagsHold, Backed, Get, Reached, Insert, Trees.Canonical;
      if |key| == 0 {
        InsertHere(t, value);
        return !(n.ValueNode? && n.bytes == value), ValueNode(value), false;
      }
      match n
      case ShortNode(k, val, flags) =>
        var matchlen := PrefixLength(key, k);
        if matchlen == |k| {
          InsertUnder(t, key, value);
          var child;
          dirty, child, missing := InsertNode(val, key[matchlen..], value, t.val, false);
          if !dirty || missing {
            if !missing {
              NothingInserted(t, key, value);
            }
            return false, n, missing;
          }
          ShortRepresents(View(), k, child, NewFlag(), Insert(t.val, key[matchlen..], value), atRoot);
          return true, ShortNode(k, child, NewFlag()), false;
        }
        InsertBeside(t, key, value);
        var branch := BranchNode(k[matchlen..], val, key[matchlen..], ValueNode(value), NewFlag());
        BranchRepresents(View(), k[matchlen..], val, key[matchlen..], ValueNode(value), NewFlag(),
                         t.val, Value(value), matchlen == 0 && atRoot);
        if matchlen == 0 {
          return true, branch, false;
        }
        ShortRepresents(View(), key[..matchlen], branch, NewFlag(),
                        Branch(k[matchlen..], t.val, key[matchlen..], Value(value)), atRoot);
        return true, ShortNode(key[..matchlen], branch, NewFlag()), false;
      case FullNode(children, flags) =>
        ReachedFull(t, key);
        InsertInside(t, key, value);
        var child;
        dirty, child, missing := InsertNode(children[key[0]], key[1..], value, t.children[key[0]], false);
        if !dirty || missing {
          if !missing {
            NothingInserted(t, key, value);
          }
          return false, n, missing;
        }
        ChildRepresents(View(), children, flags, NewFlag(), t, key[0], child,
                        Insert(t.children[key[0]], key[1..], value), atRoot);
        return true, FullNode(children[key[0] := child], NewFlag()), false;
      case NilNode =>
        InsertFirst(key, value);
        ShortRepresents(View(), key, ValueNode(value), NewFlag(), Value(value), atRoot);
        return true, ShortNode(key, ValueNode(value), NewFlag()), false;
      case HashNode(h) =>
        ReachedBranching(t, key);
        var rn := ResolveHash(h, t, atRoot);
        if rn.None? {
          return false, NilNode, true;
        }
        dirty, nn, missing := InsertNode(rn.value, key, value, t, atRoot);
        if !dirty || missing {
          if !missing {
            NothingInserted(t, key, value);
          }
          return false, rn.value, missing;
        }
      case ValueNode(v) =>
        ReachedValue(t, key);
        return false, n, false;
    }

    // ------------------------------------------------------------ deletion

    /** The index of the only child, -1 without children, -2 with more than one. */
    method LoneChild(children: seq<Node>) returns (pos: int)
      ensures -2 <= pos < |children|
      ensures pos == -1 ==> forall i :: 0 <= i < |children| ==> children[i].NilNode?
      ensures pos >= 0 ==> forall i :: 0 <= i < |children| ==> (i == pos <==> !children[i].NilNode?)
      ensures pos == -2 ==>
        exists i, j :: 0 <= i < j < |children| && !children[i].NilNode? && !children[j].NilNode?
    {
      pos := -1;
      for i := 0 to |children|
        invariant -1 <= pos < i
        invariant pos == -1 ==> forall k :: 0 <= k < i ==> children[k].NilNode?
        invariant pos >= 0 ==> forall k :: 0 <= k < i ==> (k == pos <==> !children[k].NilNode?)
      {
        if !children[i].NilNode? {
          if pos == -1 {
            pos := i;
          } else {
            assert !children[pos].NilNode? && !children[i].NilNode?;
            pos := -2;
            break;
          }
        }
      }
    }

    method DeleteNode(n: Node, key: Key, ghost t: Tree, ghost atRoot: bool)
      returns (dirty: bool, nn: Node, missing: bool)
      requires Proper(View()) && Represents(View(), n, t, atRoot)
      requires Reached(t, key)
      ensures missing ==> !complete && !dirty
      ensures !missing ==> dirty == Get(t, key).Some?
      ensures !missing ==> Represents(View(), nn, Delete(t, key), atRoot)
      ensures !missing && !dirty && !n.HashNode? ==> nn == n
      ensures dirty ==> !nn.HashNode?
      decreases t, if n.HashNode? then 1 else 0
    {
      hide Proper, FlagsHold, Backed, Get, Reached, Delete, Trees.Canonical;
      match n
      case ShortNode(k, val, flags) =>
        var matchlen := PrefixLength(key, k);
        if matchlen < |k| {
          DeleteMismatch(t, key);
          return false, n, false;
        }
        DeleteUnder(t, key);
        if matchlen == |key| {
          return true, NilNode, false;
        }
        var child;
        dirty, child, missing := DeleteNode(val, key[|k|..], t.val, false);
        if !dirty || missing {
          if !missing {
            NothingDeleted(t, key);
          }
          return false, n, missing;
        }
        nn := MergeShort(k, child, Delete(t.val, key[|k|..]), atRoot);
        return true, nn, false;
      case FullNode(children, flags) =>
        ReachedFull(t, key);
        DeleteInside(t, key);
        var child;
        dirty, child, missing := DeleteNode(children[key[0]], key[1..], t.children[key[0]], false);
        if !dirty || missing {
          if !missing {
            NothingDeleted(t, key);
          }
          return false, n, missing;
        }
        ghost var c := Delete(t.children[key[0]], key[1..]);
        ChildRepresents(View(), children, flags, NewFlag(), t, key[0], child, c, atRoot);
        nn, missing := ReduceNode(children[key[0] := child], t.children[key[0] := c], atRoot);
        return !missing, nn, missing;
      case ValueNode(v) =>
        DeleteValue(t, key);
        return true, NilNode, false;
      case NilNode =>
        DeleteNothing(key);
        return false, NilNode, false;
      case HashNode(h) =>
        ReachedBranching(t, key);
        var rn := ResolveHash(h, t, atRoot);
        if rn.None? {
          return false, NilNode, true;
        }
        dirty, nn, missing := DeleteNode(rn.value, key, t, atRoot);
        if !dirty || missing {
          if !missing {
            NothingDeleted(t, key);
          }
          return false, rn.value, missing;
        }
    }

    /** A short node whose child became a short node is merged with it. */
    method MergeShort(k: Key, child: Node, ghost c: Tree, ghost atRoot: bool) returns (nn: Node)
      requires Represents(View(), child, c, false) && !child.HashNode?
      ensures Represents(View(), nn, Prefixed(k, c), atRoot) && nn.ShortNode?
    {
      if child.ShortNode? {
        ShortRepresents(View(), k + child.key, child.val, NewFlag(), c.val, atRoot);
        return ShortNode(k + child.key, child.val, NewFlag());
      }
      ShortRepresents(View(), k, child, NewFlag(), c, atRoot);
      return ShortNode(k, child, NewFlag());
    }

    /** A full node with a single child left becomes a short node; the child is loaded to see whether it is short. */
    method ReduceNode(children: seq<Node>, ghost trees: seq<Tree>, ghost atRoot: bool)
      returns (nn: Node, missing: bool)
      requires Proper(View()) && |children| == 17 && |trees| == 17
      requires Represents(View(), FullNode(children, NewFlag()), Full(trees), atRoot)
      requires Children(trees)
      ensures missing ==> !complete
      ensures !missing ==> Represents(View(), nn, Reduce(trees), atRoot) && !nn.HashNode?
    {
      hide Proper, FlagsHold, Backed, Trees.Canonical;
      var pos := LoneChild(children);
      ReduceCases(View(), children, trees, pos);
      if pos >= 0 {
        if pos != 16 {
          var cnode, gone := Resolve(children[pos], trees[pos]);
          if gone {
            return NilNode, true;
          }
          if cnode.ShortNode? {
            ShortRepresents(View(), [pos] + cnode.key, cnode.val, NewFlag(), trees[pos].val, atRoot);
            return ShortNode([pos] + cnode.key, cnode.val, NewFlag()), false;
          }
        }
        ShortRepresents(View(), [pos], children[pos], NewFlag(), trees[pos], atRoot);
        return ShortNode([pos], children[pos], NewFlag()), false;
      }
      return FullNode(children, NewFlag()), false;
    }

    method Resolve(n: Node, ghost t: Tree) returns (r: Node, missing: bool)
      requires Proper(View()) && Represents(View(), n, t, false) && Trees.Canonical(t)
      ensures missing ==> !complete
      ensures !missing ==> Represents(View(), r, t, false) && !r.HashNode?
    {
      if n.HashNode? {
        var rn := ResolveHash(n.hash, t, false);
        if rn.None? {
          return n, true;
        }
        return rn.value, false;
      }
      return n, false;
    }

    // ------------------------------------------------------------ updates

    /** Sets a key, or deletes it when the value is empty; an update that needs a missing node changes nothing. */
    method TryUpdate(key: Bytes, value: Bytes) returns (missing: bool)
      requires Valid()
      modifies this`root, this`tree
      ensures Valid()
      ensures missing ==> !complete && root == old(root) && tree == old(tree)
      ensures !missing ==> tree == Apply(old(tree), Update(key, value))
    {
      var hex := KeybytesToHex(key);
      var k := hex[..];
      ApplyGet(tree, Update(key, value), k);
      var dirty, n;
      if |value| != 0 {
        dirty, n, missing := InsertNode(root, k, value, tree, true);
      } else {
        dirty, n, missing := DeleteNode(root, k, tree, true);
      }
      if !missing {
        root := n;
        tree := Apply(tree, Update(key, value));
      }
    }

    method TryDelete(key: Bytes) returns (missing: bool)
      requires Valid()
      modifies this`root, this`tree
      ensures Valid()
      ensures missing ==> !complete && root == old(root) && tree == old(tree)
      ensures !missing ==> tree == Apply(old(tree), Update(key, []))
    {
      missing := TryUpdate(key, []);
    }

    // ------------------------------------------------------------ hashing

    function Cache(n: Node): (Option<Bytes>, bool) {
      match n
      case ShortNode(_, _, f) => (f.hash, f.dirty)
      case FullNode(_, f) => (f.hash, f.dirty)
      case _ => (None, true)
    }

    /** Generations wrap around at 16 bits. */
    function CanUnload(f: Flags): bool
      reads this`cachegen, this`cachelimit
    {
      !f.dirty && (cachegen - f.gen) % 0x1_0000 >= cachelimit
    }

    /** Replaces a node by its hash, unless it is to be embedded, and writes it out. */
    method Store(item: Item, cached: Option<Bytes>, write: bool, force: bool, ghost t: Tree) returns (r: Collapsed)
      requires Proper(View()) && Branching(t) && item == NodeItem(keccak, t)
      requires write ==> Encoding(keccak, t) in known
      requires cached.Some? ==> cached.value == keccak(Encoding(keccak, t))
      modifies this`db
      ensures Proper(View()) && Grown(old(db), db) && (!write ==> db == old(db))
      ensures r == Collapsing(keccak, t, force)
      ensures write && r.ByHash? ==> Kept(keccak, db, Encoding(keccak, t))
    {
      var tmp := EncodeBuffers.EncodeToBytes(item);
      if tmp.Length < HASH_LENGTH && !force {
        return Whole(item);
      }
      var hash := match cached case Some(h) => h case None => keccak(tmp[..]);
      if write {
        PutGrows(View(), Encoding(keccak, t));
        db := db[hash := tmp[..]];
      }
      return ByHash(hash);
    }

    /** The reference to a node, and the node with its hash cached or its memory freed. */
    method Collapse(n: Node, write: bool, force: bool, ghost t: Tree) returns (hashed: Collapsed, cached: Node)
      requires Proper(View()) && Represents(View(), n, t, force) && Branching(t) && Trees.Canonical(t)
      requires write ==> Occurs(keccak, known, t)
      modifies this`db
      ensures Proper(View()) && Grown(old(db), db) && (!write ==> db == old(db))
      ensures hashed == Collapsing(keccak, t, force)
      ensures Represents(View(), cached, t, force)
      ensures write && complete ==> Stored(keccak, db, t) && (force ==> Kept(keccak, db, Encoding(keccak, t)))
      ensures write && !n.HashNode? && n.flags.hash.Some? && !n.flags.dirty ==>
        cached == if (cachegen - n.flags.gen) % 0x1_0000 >= cachelimit then HashNode(n.flags.hash.value) else n
      ensures n.HashNode? ==> cached == n
      ensures !n.HashNode? && !cached.HashNode? ==> Labelled(cached, hashed, !write && n.flags.dirty)
      decreases t, 1
    {
      hide Proper, NodeItem, Large, Stored, Occurs, Trees.Canonical;
      if n.HashNode? {
        return ByHash(n.hash), n;
      }
      var (hash, dirty) := Cache(n);
      if hash.Some? {
        if !write {
          return ByHash(hash.value), n;
        }
        if CanUnload(n.flags) {
          return ByHash(hash.value), HashNode(hash.value);
        }
        if !dirty {
          return ByHash(hash.value), n;
        }
      }
      NodeParts(View(), n, t, force);
      if write {
        OccursHere(keccak, known, t);
      }
      var item;
      item, cached := CollapseChildren(n, write, t);
      label children:
      hashed := Store(item, hash, write, force, t);
      ghost var before := old@children(View());
      PartsGrown(before, View(), cached, t);
      var flags := cached.flags.(hash := if hashed.ByHash? then Some(hashed.hash) else None,
                                 dirty := !write && cached.flags.dirty);
      if write && complete {
        StoredWhole(keccak, before.db, db, t);
      }
      PartsRepresent(View(), cached, flags, t, force);
      cached := Relabel(cached, flags);
    }

    /** The node as it is written, and the node with its children collapsed. */
    method CollapseChildren(n: Node, write: bool, ghost t: Tree) returns (item: Item, cached: Node)
      requires Proper(View()) && Trees.Canonical(t) && Parts(View(), n, t)
      requires write ==> Occurs(keccak, known, t)
      modifies this`db
      ensures Proper(View()) && Grown(old(db), db) && (!write ==> db == old(db))
      ensures item == NodeItem(keccak, t)
      ensures Parts(View(), cached, t) && cached.flags == n.flags
      ensures write && complete ==> PartsStored(keccak, db, t)
      decreases t, 0
    {
      hide Proper, Stored, Collapsing, AllRepresent;
      if n.ShortNode? {
        CanonicalKey(n.key, t.val);
        var compact := HexToCompact(n.key);
        var ref, val := CollapseShort(n.val, write, t.val);
        return Item.List([Str(compact[..]), ref]), ShortNode(n.key, val, n.flags);
      } else {
        var refs, children := CollapseFull(n.children, write, t.children);
        assert refs == NodeItem(keccak, t).items;
        return Item.List(refs), FullNode(children, n.flags);
      }
    }

    method CollapseShort(n: Node, write: bool, ghost t: Tree) returns (ref: Item, cached: Node)
      requires Proper(View()) && Represents(View(), n, t, false) && (Leaf(t) || (t.Full? && Trees.Canonical(t)))
      requires write ==> Occurs(keccak, known, t)
      modifies this`db
      ensures Proper(View()) && Grown(old(db), db) && (!write ==> db == old(db))
      ensures ref == Reference(keccak, t) && Represents(View(), cached, t, false)
      ensures write && complete ==> Stored(keccak, db, t)
      ensures Relabelled(n, cached, write)
      decreases t, 2
    {
      if n.ValueNode? {
        ValueReference(keccak, n.bytes, 0);
        return Str(n.bytes), n;
      }
      var hashed;
      hashed, cached := Collapse(n, write, false, t);
      CollapsingIsReference(keccak, t);
      return ItemOf(hashed), cached;
    }

    method CollapseFull(nodes: seq<Node>, write: bool, ghost trees: seq<Tree>)
      returns (refs: seq<Item>, cached: seq<Node>)
      requires Proper(View()) && AllRepresent(View(), nodes, trees) && Children(trees)
      requires write ==> AllOccur(keccak, known, trees)
      modifies this`db
      ensures Proper(View()) && Grown(old(db), db) && (!write ==> db == old(db))
      ensures refs == References(keccak, trees, 0)
      ensures AllRepresent(View(), cached, trees)
      ensures |nodes| == |cached| == 17
      ensures forall i | 0 <= i < 16 :: Relabelled(nodes[i], cached[i], write)
      ensures write && complete ==> AllStored(keccak, db, trees)
      decreases trees, 3
    {
      hide Proper, Stored, Collapsing, Reference, Represents, Occurs, Trees.Canonical, Extends, Relabelled;
      cached := nodes;
      refs := [];
      for i := 0 to 16
        invariant Proper(View()) && Grown(old(db), db) && (!write ==> db == old(db))
        invariant AllRepresent(View(), cached, trees)
        invariant |refs| == i && forall k :: 0 <= k < i ==> refs[k] == Reference(keccak, trees[k])
        invariant write && complete ==> AllStored(keccak, db, trees[..i])
        invariant |cached| == |nodes| == 17 && cached[i..] == nodes[i..]
        invariant forall k | 0 <= k < i :: Relabelled(nodes[k], cached[k], write)
      {
        label before:
        var ref, child := CollapseChild(cached[i], write, trees[i]);
        AllRepresentGrown(old@before(View()), View(), cached, trees);
        if write && complete {
          AllStoredGrown(keccak, old@before(db), db, trees[..i]);
          assert trees[..i + 1] == trees[..i] + [trees[i]];
        }
        refs := refs + [ref];
        cached := cached[i := child];
      }
      var last := cached[16];
      LastChild(View(), last, trees[16]);
      refs := refs + [Str(if last.ValueNode? then last.bytes else [])];
      assert trees == trees[..16] + [trees[16]];
    }

    method CollapseChild(n: Node, write: bool, ghost t: Tree) returns (ref: Item, cached: Node)
      requires Proper(View()) && Represents(View(), n, t, false) && Trees.Canonical(t)
      requires write ==> Occurs(keccak, known, t)
      modifies this`db
      ensures Proper(View()) && Grown(old(db), db) && (!write ==> db == old(db))
      ensures ref == Reference(keccak, t) && Represents(View(), cached, t, false)
      ensures write && complete ==> Stored(keccak, db, t)
      ensures Relabelled(n, cached, write)
      decreases t, 2
    {
      if n.NilNode? {
        return Str([]), n;
      }
      var hashed;
      hashed, cached := Collapse(n, write, false, t);
      CollapsingIsReference(keccak, t);
      return ItemOf(hashed), cached;
    }

    method HashRoot(write: bool) returns (hash: Bytes, cached: Node)
      requires Valid()
      requires write ==> Occurs(keccak, known, tree)
      modifies this`db
      ensures Proper(View()) && Grown(old(db), db) && (!write ==> db == old(db))
      ensures hash == RootHash(keccak, tree)
      ensures Represents(View(), cached, tree, true)
      ensures write && complete ==> Saved(keccak, db, tree)
      ensures tree.Empty? || cached.HashNode? || (Branched(cached) && cached.flags.hash == Some(hash))
      ensures Relabelled(root, cached, write)
    {
      if root.NilNode? {
        return EmptyRoot(keccak), NilNode;
      }
      var hashed;
      hashed, cached := Collapse(root, write, true, tree);
      hash := hashed.hash;
    }

    /** The root hash, computed without writing. */
    method Hash() returns (hash: Bytes)
      requires Valid()
      modifies this`root, this`db
      ensures Valid() && db == old(db)
      ensures hash == RootHash(keccak, tree)
      ensures tree.Empty? || root.HashNode? || (Branched(root) && root.flags.hash == Some(hash))
    {
      var cached;
      hash, cached := HashRoot(false);
      root := cached;
    }

    /**
     * Writes the tree to the database and returns its root hash; nothing stored before is lost. All of the tree is
     * there afterwards, unless some of it that is not loaded was missing before.
     */
    method Commit() returns (hash: Bytes)
      requires Valid() && Occurs(keccak, known, tree)
      modifies this`root, this`db, this`cachegen
      ensures Valid() && Grown(old(db), db)
      ensures hash == RootHash(keccak, tree) && (complete ==> Saved(keccak, db, tree))
      ensures cachegen == (old(cachegen) + 1) % 0x1_0000
      ensures tree.Empty? || root.HashNode? || (Branched(root) && root.flags.hash == Some(hash) && !root.flags.dirty)
    {
      var cached;
      hash, cached := HashRoot(true);
      root := cached;
      cachegen := (cachegen + 1) % 0x1_0000;
    }

    // ------------------------------------------------------------ opening

    constructor (keccak: Hasher, ghost known: iset<Bytes>, db: Database)
      requires CollisionFree(keccak, known) && Addressed(keccak, known, db)
      ensures Valid() && tree == Empty && complete && cachegen == 0 && cachelimit == 0
      ensures this.keccak == keccak && this.known == known && this.db == db
    {
      this.keccak, this.known, this.db := keccak, known, db;
      root, cachegen, cachelimit := NilNode, 0, 0;
      tree, complete := Empty, true;
    }

    /**
     * Opens the trie with the given root hash, or an empty one at the zero hash; fails only if the root is not stored.
     */
    static method Open(keccak: Hasher, ghost known: iset<Bytes>, db: Database, root: Bytes, ghost t: Tree)
      returns (trie: Trie?)
      requires CollisionFree(keccak, known) && Addressed(keccak, known, db)
      requires Trees.Canonical(t) && Occurs(keccak, known, t)
      requires root == RootHash(keccak, t) || (root == ZERO_HASH && t.Empty?)
      ensures trie != null ==> fresh(trie) && trie.Valid() && trie.tree == t && trie.db == db
      ensures trie != null && Saved(keccak, db, t) ==> trie.complete
      ensures trie == null <==> !t.Empty? && root !in db
    {
      hide CollisionFree, Addressed, Occurs, Trees.Canonical, Saved, Represents, Proper;
      trie := new Trie(keccak, known, db);
      RootHashes(keccak, known, t);
      if root != ZERO_HASH && root != EmptyRoot(keccak) {
        OpenedAtRoot(keccak, known, db, t);
        trie.complete := Saved(keccak, db, t);
        var rootnode := trie.ResolveHash(root, t, true);
        if rootnode.None? {
          return null;
        }
        trie.root := rootnode.value;
        trie.tree := t;
      }
    }
  }

  // ------------------------------------------------------------ root hashes

  function RootHash(h: Hasher, t: Tree): Bytes {
    if t.Empty? then EmptyRoot(h) else h(Encoding(h, t))
  }

  lemma OpenedAtRoot(h: Hasher, known: iset<Bytes>, db: Database, t: Tree)
    requires CollisionFree(h, known) && Addressed(h, known, db)
    requires Trees.Canonical(t) && Occurs(h, known, t) && !t.Empty?
    ensures
      var world := World(h, known, db, Saved(h, db, t));
      Proper(world) && Represents(world, HashNode(RootHash(h, t)), t, true)
  {
  }

  /** The whole tree can be loaded from its root hash. */
  predicate Saved(h: Hasher, db: Database, t: Tree) {
    t.Empty? || (Kept(h, db, Encoding(h, t)) && Stored(h, db, t))
  }

  /** The root hash of a tree that holds something is neither of the two that stand for nothing. */
  lemma RootHashes(h: Hasher, known: iset<Bytes>, t: Tree)
    requires CollisionFree(h, known) && Occurs(h, known, t) && Trees.Canonical(t)
    ensures t.Empty? <==> RootHash(h, t) == EmptyRoot(h)
    ensures RootHash(h, t) != ZERO_HASH
  {
    if !t.Empty? {
      EncodingIsList(h, t);
    }
  }

  lemma EncodingIsList(h: Hasher, t: Tree)
    requires Branching(t) && |Encoding(h, t)| <= MAX_UINT64
    ensures Encoding(h, t) != [0x80]
  {
    var items := NodeItem(h, t).items;
    EncodeInjectiveHead(items);
  }

  lemma EncodeInjectiveHead(items: seq<Item>)
    requires |Encode(Item.List(items))| <= MAX_UINT64
    ensures Encode(Item.List(items)) != [0x80]
  {
    if Encode(Item.List(items)) == [0x80] {
      EncodeInjective(Item.List(items), Str([]));
    }
  }

  /** The root hash determines the tree, and with it the contents. */
  lemma {:induction false} SameRootHash(h: Hasher, known: iset<Bytes>, a: Tree, b: Tree)
    requires CollisionFree(h, known) && Trees.Canonical(a) && Trees.Canonical(b)
    requires Occurs(h, known, a) && Occurs(h, known, b)
    ensures RootHash(h, a) == RootHash(h, b) <==> a == b
  {
    RootHashes(h, known, a);
    RootHashes(h, known, b);
    if RootHash(h, a) == RootHash(h, b) && !a.Empty? {
      SameEncoding(h, known, a, b);
    }
  }

  lemma EncodingFits(h: Hasher, known: iset<Bytes>, t: Tree)
    requires CollisionFree(h, known) && Trees.Canonical(t) && !t.Empty? && Occurs(h, known, t)
    ensures |Encoding(h, t)| <= MAX_UINT64
  {
  }

  lemma {:induction false} SameEncoding(h: Hasher, known: iset<Bytes>, a: Tree, b: Tree)
    requires CollisionFree(h, known) && Trees.Canonical(a) && Trees.Canonical(b) && !a.Empty? && !b.Empty?
    requires Occurs(h, known, a) && Occurs(h, known, b) && Encoding(h, a) == Encoding(h, b)
    ensures a == b
    decreases a, 1
  {
    hide DecodeNode, Opened, NodeItem, Trees.Canonical;
    EncodingFits(h, known, a);
    var e := Encoding(h, a);
    assert e + [] == e;
    DecodeEncoding(h, known, a, None, [], 0);
    DecodeEncoding(h, known, b, None, [], 0);
    SameOpened(h, known, a, b);
  }

  lemma {:induction false} SameOpened(h: Hasher, known: iset<Bytes>, a: Tree, b: Tree)
    requires CollisionFree(h, known) && Trees.Canonical(a) && Trees.Canonical(b) && !a.Empty? && !b.Empty?
    requires Occurs(h, known, a) && Occurs(h, known, b) && Opened(h, a, None, 0) == Opened(h, b, None, 0)
    ensures a == b
    decreases a, 0
  {
    if a.Short? {
      SameChildOpened(h, known, a.val, b.val);
    } else {
      var x, y := Opened(h, a, None, 0).children, Opened(h, b, None, 0).children;
      forall i | 0 <= i < 17
        ensures a.children[i] == b.children[i]
      {
        assert x[i] == OpenedChild(h, a.children[i], 0) && y[i] == OpenedChild(h, b.children[i], 0);
        SameChildOpened(h, known, a.children[i], b.children[i]);
      }
      assert a.children == b.children;
    }
  }

  lemma {:induction false} SameChildOpened(h: Hasher, known: iset<Bytes>, a: Tree, b: Tree)
    requires CollisionFree(h, known) && OpenedChild(h, a, 0) == OpenedChild(h, b, 0)
    requires (Leaf(a) || Trees.Canonical(a)) && (Leaf(b) || Trees.Canonical(b))
    requires Occurs(h, known, a) && Occurs(h, known, b)
    ensures a == b
    decreases a, 2
  {
    if Large(h, a) && Large(h, b) {
      SameEncoding(h, known, a, b);
    } else if Branching(a) && Branching(b) {
      SameOpened(h, known, a, b);
    }
  }

  // ------------------------------------------------------------ collapsing

  /** The node's own level matches the tree's, and its children stand for the tree's children. */
  ghost predicate Parts(w: World, n: Node, t: Tree) {
    || (n.ShortNode? && t.Short? && n.key == t.key && Represents(w, n.val, t.val, false))
    || (n.FullNode? && t.Full? && AllRepresent(w, n.children, t.children))
  }

  predicate PartsStored(h: Hasher, db: Database, t: Tree) {
    && (t.Short? ==> Stored(h, db, t.val))
    && (t.Full? ==> AllStored(h, db, t.children))
  }

  predicate AllStored(h: Hasher, db: Database, trees: seq<Tree>) {
    forall i :: 0 <= i < |trees| ==> Stored(h, db, trees[i])
  }

  ghost predicate AllOccur(h: Hasher, known: iset<Bytes>, trees: seq<Tree>) {
    forall i :: 0 <= i < |trees| ==> Occurs(h, known, trees[i])
  }

  /** The value slot of a full node is written as it is. */
  lemma LastChild(w: World, n: Node, t: Tree)
    requires Represents(w, n, t, false) && (t.Empty? || t.Value?)
    ensures Reference(w.keccak, t) == Str(if n.ValueNode? then n.bytes else [])
    ensures Stored(w.keccak, w.db, t)
  {
  }

  lemma CollapsingIsReference(h: Hasher, t: Tree)
    requires Branching(t)
    ensures ItemOf(Collapsing(h, t, false)) == Reference(h, t)
  {
  }

  lemma NodeParts(w: World, n: Node, t: Tree, root: bool)
    requires Represents(w, n, t, root) && Branching(t) && !n.HashNode?
    ensures Parts(w, n, t) && FlagsHold(w, n.flags, t, root)
  {
  }

  lemma PartsGrown(v: World, w: World, n: Node, t: Tree)
    requires Extends(v, w) && Parts(v, n, t)
    ensures Parts(w, n, t)
  {
    if n.ShortNode? {
      RepresentsGrown(v, w, n.val, t.val, false);
    } else {
      AllRepresentGrown(v, w, n.children, t.children);
    }
  }

  predicate Branched(n: Node) {
    n.ShortNode? || n.FullNode?
  }

  /** The node carries the hash it is referred to by, if it is, and this mark. */
  predicate Labelled(n: Node, r: Collapsed, dirty: bool) {
    Branched(n) && n.flags.hash == (if r.ByHash? then Some(r.hash) else None) && n.flags.dirty == dirty
  }

  /** Collapsing a node keeps it, or leaves its hash, and takes its mark away when it is written. */
  predicate Relabelled(n: Node, cached: Node, write: bool) {
    if Branched(n)
    then cached.HashNode? || (Branched(cached) && cached.flags.dirty == (!write && n.flags.dirty))
    else cached == n
  }

  function Relabel(n: Node, f: Flags): Node {
    match n
    case ShortNode(key, val, _) => ShortNode(key, val, f)
    case FullNode(children, _) => FullNode(children, f)
    case _ => n
  }

  lemma OccursHere(h: Hasher, known: iset<Bytes>, t: Tree)
    requires Occurs(h, known, t) && Branching(t)
    ensures Encoding(h, t) in known
  {
  }

  lemma AllStoredGrown(h: Hasher, a: Database, b: Database, trees: seq<Tree>)
    requires Grown(a, b) && AllStored(h, a, trees)
    ensures AllStored(h, b, trees)
  {
    forall i | 0 <= i < |trees|
      ensures Stored(h, b, trees[i])
    {
      StoredGrown(h, a, b, trees[i]);
    }
  }

  lemma StoredWhole(h: Hasher, a: Database, b: Database, t: Tree)
    requires Grown(a, b) && PartsStored(h, a, t) && Branching(t)
    requires Large(h, t) ==> Kept(h, b, Encoding(h, t))
    ensures Stored(h, b, t)
  {
    if t.Short? {
      StoredGrown(h, a, b, t.val);
    } else {
      forall i | 0 <= i < |t.children|
        ensures Stored(h, b, t.children[i])
      {
        StoredGrown(h, a, b, t.children[i]);
      }
    }
  }

  lemma PartsRepresent(w: World, n: Node, f: Flags, t: Tree, root: bool)
    requires Parts(w, n, t) && FlagsHold(w, f, t, root)
    ensures Represents(w, Relabel(n, f), t, root)
  {
  }

  lemma GetEmpty(key: Key)
    ensures Get(Empty, key) == None
  {
  }

  lemma GetValue(v: Bytes, key: Key)
    ensures Get(Value(v), key) == Some(v)
  {
  }

  lemma GetMismatch(t: Tree, key: Key)
    requires t.Short? && !(t.key <= key)
    ensures Get(t, key) == None
  {
  }

  lemma SameFlags(w: World, f: Flags, gen: nat, t: Tree, root: bool)
    requires FlagsHold(w, f, t, root)
    ensures FlagsHold(w, f.(gen := gen), t, root)
  {
  }

  lemma ReachedBranching(t: Tree, key: Key)
    requires Reached(t, key) && Branching(t)
    ensures Terminated(key) && Trees.Canonical(t)
  {
  }

  // ------------------------------------------------------------ the cases of insertion

  lemma InsertHere(t: Tree, value: Bytes)
    requires Reached(t, [])
    ensures Insert(t, [], value) == Value(value)
    ensures Get(t, []) == Some(value) <==> t == Value(value)
  {
  }

  lemma InsertFirst(key: Key, value: Bytes)
    requires key != []
    ensures Insert(Empty, key, value) == Short(key, Value(value)) && Get(Empty, key) == None
  {
  }

  lemma InsertUnder(t: Tree, key: Key, value: Bytes)
    requires t.Short? && Reached(t, key) && key != [] && PrefixLen(key, t.key) == |t.key|
    ensures
      var n := |t.key|;
      && Insert(t, key, value) == Short(t.key, Insert(t.val, key[n..], value))
      && Reached(t.val, key[n..]) && Get(t, key) == Get(t.val, key[n..])
  {
    assert t.key <= key;
    ReachedShort(t, key);
  }

  lemma InsertBeside(t: Tree, key: Key, value: Bytes)
    requires t.Short? && Reached(t, key) && key != [] && PrefixLen(key, t.key) < |t.key|
    ensures
      var n := PrefixLen(key, t.key);
      && n < |key| && Get(t, key) == None
      && Insert(t, key, value) == Hang(key[..n], Branch(t.key[n..], t.val, key[n..], Value(value)))
  {
    ShortParts(key, t.key, t.val);
    var n := PrefixLen(key, t.key);
    assert key[n] != t.key[n];
  }

  lemma InsertInside(t: Tree, key: Key, value: Bytes)
    requires t.Full? && Reached(t, key)
    ensures key != [] && key[0] < |t.children|
    ensures Insert(t, key, value) == Full(t.children[key[0] := Insert(t.children[key[0]], key[1..], value)])
  {
  }

  lemma NothingInserted(t: Tree, key: Key, value: Bytes)
    requires Reached(t, key) && key != [] && Get(t, key) == Some(value)
    ensures Insert(t, key, value) == t
  {
    InsertPresent(t, key, value);
  }

  lemma ReachedValue(t: Tree, key: Key)
    requires t.Value? && Reached(t, key)
    ensures key == []
  {
  }

  // ------------------------------------------------------------ the cases of deletion

  lemma DeleteMismatch(t: Tree, key: Key)
    requires t.Short? && PrefixLen(key, t.key) < |t.key|
    ensures Delete(t, key) == t && Get(t, key) == None
  {
    var n := PrefixLen(key, t.key);
    if n < |key| {
      assert key[n] != t.key[n];
    }
  }

  lemma DeleteUnder(t: Tree, key: Key)
    requires t.Short? && Reached(t, key) && PrefixLen(key, t.key) == |t.key|
    ensures
      var n := |t.key|;
      && n <= |key| && Reached(t.val, key[n..]) && Get(t, key) == Get(t.val, key[n..])
      && Delete(t, key) == (if n == |key| then Empty else Prefixed(t.key, Delete(t.val, key[n..])))
      && (n == |key| ==> Get(t, key).Some?)
  {
    assert t.key <= key;
    ReachedShort(t, key);
    if |t.key| == |key| {
      ShortWhole(key, t.key, t.val);
    }
  }

  lemma DeleteInside(t: Tree, key: Key)
    requires t.Full? && Reached(t, key)
    ensures key != [] && key[0] < |t.children| == 17
    ensures Delete(t, key) == Reduce(t.children[key[0] := Delete(t.children[key[0]], key[1..])])
    ensures Children(t.children[key[0] := Delete(t.children[key[0]], key[1..])])
  {
    if key[0] != TERMINATOR {
      SuffixTerminated(key, 1);
      DeleteCanonical(t.children[key[0]], key[1..]);
    }
  }

  lemma DeleteValue(t: Tree, key: Key)
    requires t.Value? && Reached(t, key)
    ensures Delete(t, key) == Empty && Get(t, key).Some?
  {
  }

  lemma DeleteNothing(key: Key)
    ensures Delete(Empty, key) == Empty && Get(Empty, key).None?
  {
  }

  lemma NothingDeleted(t: Tree, key: Key)
    requires Reached(t, key) && key != [] && Get(t, key).None?
    ensures Delete(t, key) == t
  {
    DeleteAbsent(t, key);
  }

  /** The number of children can be read off the nodes. */
  lemma ReduceCases(w: World, children: seq<Node>, trees: seq<Tree>, pos: int)
    requires |children| == |trees| == 17 && -2 <= pos < 17
    requires forall i :: 0 <= i < 17 ==> Represents(w, children[i], trees[i], false)
    requires pos == -1 ==> forall i :: 0 <= i < 17 ==> children[i].NilNode?
    requires pos >= 0 ==> forall i :: 0 <= i < 17 ==> (i == pos <==> !children[i].NilNode?)
    requires pos == -2 ==> exists i, j :: 0 <= i < j < 17 && !children[i].NilNode? && !children[j].NilNode?
    ensures Reduce(trees) == if pos >= 0 then Prefixed([pos], trees[pos]) else Full(trees)
  {
    forall i | 0 <= i < 17
      ensures children[i].NilNode? <==> trees[i].Empty?
    {
      assert Represents(w, children[i], trees[i], false);
    }
    var first := NextChild(trees, 0);
    if first < 17 {
      var second := NextChild(trees, first + 1);
    }
  }

  // ------------------------------------------------------------ whole runs

  /** After a commit, a trie opened at the returned root answers every key as before. */
  method CommitThenReopen(trie: Trie, key: Bytes) returns (again: Trie, before: Option<Bytes>, after: Option<Bytes>)
    requires trie.Valid() && trie.complete && Occurs(trie.keccak, trie.known, trie.tree)
    modifies trie
    ensures again.Valid() && again.complete && again.tree == trie.tree == old(trie.tree)
    ensures before == after == Get(old(trie.tree), Hex(key))
  {
    var missing;
    before, missing := trie.TryGet(key);
    var root := trie.Commit();
    again := Trie.Open(trie.keccak, trie.known, trie.db, root, trie.tree);
    after, missing := again.TryGet(key);
  }

  /**
   * A history of updates, with commits after any of them: the trie holds what an ordinary map
   * would, and its root hash is that of the one tree with these contents.
   */
  method Replay(keccak: Hasher, ghost known: iset<Bytes>, updates: seq<Update>, commits: set<nat>)
    returns (trie: Trie, hash: Bytes)
    requires CollisionFree(keccak, known)
    requires forall n :: 0 <= n <= |updates| ==> Occurs(keccak, known, Run(updates[..n]))
    ensures fresh(trie) && trie.Valid() && trie.complete && trie.tree == Run(updates)
    ensures Holds(trie.tree, Ledger(updates)) && hash == RootHash(keccak, Run(updates))
    ensures hash == YellowPaper.Root(keccak, YellowPaper.Pairs(Ledger(updates)))
    ensures |updates| - 1 in commits && updates != [] ==> Saved(keccak, trie.db, trie.tree)
  {
    hide CollisionFree, Occurs, Run, Holds, Ledger, Saved;
    NothingRun();
    trie := new Trie(keccak, known, map[]);
    for n := 0 to |updates|
      invariant fresh(trie) && trie.Valid() && trie.complete && trie.tree == Run(updates[..n])
      invariant trie.keccak == keccak && trie.known == known
      invariant n > 0 && n - 1 in commits ==> Saved(keccak, trie.db, trie.tree)
    {
      RunNext(updates, n);
      var missing := trie.TryUpdate(updates[n].key, updates[n].value);
      if n in commits {
        var _ := trie.Commit();
      }
    }
    assert updates[..|updates|] == updates;
    RunHolds(updates);
    RootIsYellowPaper(keccak, Run(updates), Ledger(updates));
    hash := trie.Hash();
  }

  lemma NothingRun()
    ensures Run([]) == Empty
  {
  }

  lemma RunNext(updates: seq<Update>, n: nat)
    requires n < |updates|
    ensures Run(updates[..n + 1]) == Apply(Run(updates[..n]), updates[n])
  {
    assert updates[..n + 1][..n] == updates[..n];
  }

  /** The root hash of a tree is the one that the Yellow Paper defines for the map that the tree holds. */
  lemma RootIsYellowPaper(h: Hasher, t: Tree, m: map<Bytes, Bytes>)
    requires Trees.Canonical(t) && Holds(t, m)
    ensures RootHash(h, t) == YellowPaper.Root(h, YellowPaper.Pairs(m))
  {
    hide Holds, Trees.Canonical, YellowPaper.Filled, YellowPaper.Structure, YellowPaper.Pairs, NodeItem;
    YellowPaper.HoldsFilled(t, m);
    YellowPaper.FilledNothing(t, YellowPaper.Pairs(m));
    if !t.Empty? {
      YellowPaper.TreeIsStructure(h, t, YellowPaper.Pairs(m));
    }
  }

  /** Two histories have the same root hash exactly if they leave the same map. */
  lemma RootHashIsContents(h: Hasher, known: iset<Bytes>, a: seq<Update>, b: seq<Update>)
    requires CollisionFree(h, known) && Occurs(h, known, Run(a)) && Occurs(h, known, Run(b))
    ensures RootHash(h, Run(a)) == RootHash(h, Run(b)) <==> Ledger(a) == Ledger(b)
  {
    RunHolds(a);
    RunHolds(b);
    SameRootHash(h, known, Run(a), Run(b));
    if Ledger(a) == Ledger(b) {
      HistoryIndependent(a, b);
    }
    if Run(a) == Run(b) {
      HeldAlone(Run(a), Ledger(a), Ledger(b));
    }
  }

  lemma HeldAlone(t: Tree, m: map<Bytes, Bytes>, n: map<Bytes, Bytes>)
    requires Holds(t, m) && Holds(t, n)
    ensures m == n
  {
    forall key
      ensures key in m <==> key in n
      ensures key in m && key in n ==> m[key] == n[key]
    {
      assert Get(t, Hex(key)) == Lookup(m, key) == Lookup(n, key);
    }
  }
}
