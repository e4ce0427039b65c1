/**
 * The Merkle Patricia trie as a value, fully loaded: lookup, insertion and
 * deletion with path compression (trie/trie.go). A canonical tree is determined by its contents.
 */
module Trees {
  import opened Options
  import opened Bytes
  import opened Rlp

  /** Nibbles 0 to 15, and the terminator 16. */
  type Nibble = n: int | 0 <= n <= 16

  type Key = seq<Nibble>

  const TERMINATOR: Nibble := 16

  datatype Tree = Empty
                | Value(bytes: Bytes)
                | Short(key: Key, val: Tree)
                | Full(children: seq<Tree>)

  /** A terminated key: nibbles, then the terminator. */
  predicate Terminated(key: Key) {
    && key != [] && key[|key| - 1] == TERMINATOR
    && forall k :: 0 <= k < |key| - 1 ==> key[k] != TERMINATOR
  }

  predicate Plain(key: Key) {
    forall k :: 0 <= k < |key| ==> key[k] != TERMINATOR
  }

  /**
   * The minimal form: no short node under a short node, full nodes with at least two children,
   * values behind terminators only, no empty value.
   */
  predicate Canonical(t: Tree) {
    match t
    case Empty => true
    case Value(_) => false
    case Short(key, val) =>
      if Terminated(key) then Leaf(val) else key != [] && Plain(key) && val.Full? && Canonical(val)
    case Full(children) =>
      && |children| == 17
      && (forall k :: 0 <= k < 16 ==> Canonical(children[k]))
      && (children[16].Empty? || Leaf(children[16]))
      && Crowded(children)
  }

  predicate Leaf(t: Tree) {
    t.Value? && t.bytes != []
  }

  predicate Crowded(children: seq<Tree>) {
    exists i, j :: 0 <= i < j < |children| && !children[i].Empty? && !children[j].Empty?
  }

  // ------------------------------------------------------------ lookup

  function Get(t: Tree, key: Key): Option<Bytes> {
    match t
    case Empty => None
    case Value(v) => Some(v)
    case Short(k, val) => if k <= key then Get(val, key[|k|..]) else None
    case Full(children) =>
      if key == [] || key[0] >= |children| then None else Get(children[key[0]], key[1..])
  }

  // ------------------------------------------------------------ insertion

  function PrefixLen(a: Key, b: Key): (n: nat)
    ensures n <= |a| && n <= |b| && a[..n] == b[..n]
    ensures n < |a| && n < |b| ==> a[n] != b[n]
  {
    if a == [] || b == [] || a[0] != b[0] then 0
    else
      var n := PrefixLen(a[1..], b[1..]);
      assert a[..n + 1] == [a[0]] + a[1..][..n] && b[..n + 1] == [b[0]] + b[1..][..n];
      n + 1
  }

  /** A subtree hung up behind the rest of a key. */
  function Hang(key: Key, t: Tree): Tree {
    if key == [] then t else Short(key, t)
  }

  function NoChildren(): seq<Tree> {
    seq(17, _ => Empty)
  }

  /** Two subtrees whose keys part at their first nibble. */
  function Branch(a: Key, x: Tree, b: Key, y: Tree): Tree
    requires a != [] && b != []
  {
    Full(NoChildren()[a[0] := Hang(a[1..], x)][b[0] := Hang(b[1..], y)])
  }

  function Insert(t: Tree, key: Key, v: Bytes): Tree {
    if key == [] then Value(v)
    else
      match t
      case Empty => Short(key, Value(v))
      case Value(_) => t
      case Short(k, val) =>
        var n := PrefixLen(key, k);
        if n == |k| then Short(k, Insert(val, key[n..], v))
        else if n == |key| then t
        else Hang(key[..n], Branch(k[n..], val, key[n..], Value(v)))
      case Full(children) =>
        if key[0] >= |children| then t
        else Full(children[key[0] := Insert(children[key[0]], key[1..], v)])
  }

  lemma {:induction false} SuffixTerminated(key: Key, n: nat)
    requires Terminated(key) && n < |key|
    ensures Terminated(key[n..]) && Plain(key[..n])
  {
  }

  lemma HangCanonical(key: Key, t: Tree)
    requires (key == [] && Leaf(t)) || (Terminated(key) && Leaf(t)) || (Plain(key) && t.Full? && Canonical(t))
    ensures !Hang(key, t).Empty?
    ensures key == [] || Canonical(Hang(key, t))
    ensures t.Full? ==> Canonical(Hang(key, t))
  {
  }

  /** What hangs under a short node of canonical form, seen from the n-th nibble of its key. */
  lemma ShortSuffix(k: Key, val: Tree, n: nat)
    requires Canonical(Short(k, val)) && n < |k|
    ensures
      var rest := k[n..];
      if Terminated(k) then Terminated(rest) && Leaf(val) && (rest[0] == TERMINATOR <==> rest[1..] == [])
      else rest[0] != TERMINATOR && Plain(rest[1..]) && val.Full? && Canonical(val)
    ensures Plain(k[..n])
  {
    if Terminated(k) {
      SuffixTerminated(k, n);
    }
  }

  lemma BranchCanonical(a: Key, x: Tree, b: Key, y: Tree)
    requires a != [] && b != [] && a[0] != b[0]
    requires (Terminated(a) && Leaf(x)) || (Plain(a) && x.Full? && Canonical(x))
    requires Terminated(b) && Leaf(y)
    ensures Canonical(Branch(a, x, b, y))
  {
    var children := Branch(a, x, b, y).children;
    if a[0] != TERMINATOR {
      HangCanonical(a[1..], x);
    }
    if b[0] != TERMINATOR {
      HangCanonical(b[1..], y);
    }
    assert !children[a[0]].Empty? && !children[b[0]].Empty?;
    assert Crowded(children) by {
      if a[0] < b[0] {
        assert !children[a[0]].Empty? && !children[b[0]].Empty?;
      }
    }
  }

  /** Insertion keeps the minimal form, and full nodes full. */
  lemma {:induction false} InsertCanonical(t: Tree, key: Key, v: Bytes)
    requires Canonical(t) && Terminated(key) && v != []
    ensures Canonical(Insert(t, key, v)) && !Insert(t, key, v).Empty?
    ensures t.Full? ==> Insert(t, key, v).Full?
    decreases t
  {
    match t
    case Empty =>
    case Short(k, val) =>
      var n := PrefixLen(key, k);
      if n < |key| {
        SuffixTerminated(key, n);
      }
      if n == |k| {
        ShortWhole(key, k, val);
        if n < |key| {
          InsertCanonical(val, key[n..], v);
        }
      } else {
        ShortParts(key, k, val);
        ShortSuffix(k, val, n);
        BranchCanonical(k[n..], val, key[n..], Value(v));
        HangCanonical(key[..n], Branch(k[n..], val, key[n..], Value(v)));
      }
    case Full(children) =>
      if key[0] != TERMINATOR {
        SuffixTerminated(key, 1);
        InsertCanonical(children[key[0]], key[1..], v);
      }
      StillCrowded(children, key[0], Insert(children[key[0]], key[1..], v));
  }

  /** A whole match with a leaf's key is a match with the whole key. */
  lemma ShortWhole(key: Key, k: Key, val: Tree)
    requires Canonical(Short(k, val)) && Terminated(key) && k <= key
    ensures if Terminated(k) then key == k else |k| < |key| && val.Full?
  {
    assert key[|k| - 1] == k[|k| - 1];
  }

  /** A terminated key is never a proper prefix of a key in the tree. */
  lemma ShortParts(key: Key, k: Key, val: Tree)
    requires Canonical(Short(k, val)) && Terminated(key) && PrefixLen(key, k) < |k|
    ensures PrefixLen(key, k) < |key|
  {
    var n := PrefixLen(key, k);
    assert n > 0 ==> key[n - 1] == key[..n][n - 1] == k[..n][n - 1] == k[n - 1];
  }

  lemma StillCrowded(children: seq<Tree>, at: nat, child: Tree)
    requires Crowded(children) && at < |children| && !child.Empty?
    ensures Crowded(children[at := child])
  {
    var i, j :| 0 <= i < j < |children| && !children[i].Empty? && !children[j].Empty?;
    var after := children[at := child];
    assert !after[i].Empty? && !after[j].Empty?;
  }

  lemma GetHang(key: Key, t: Tree, other: Key)
    ensures Get(Hang(key, t), other) == if key <= other then Get(t, other[|key|..]) else None
  {
  }

  lemma GetBranch(a: Key, x: Tree, b: Key, y: Tree, other: Key)
    requires a != [] && b != [] && a[0] != b[0]
    ensures Get(Branch(a, x, b, y), other)
            == if a <= other then Get(x, other[|a|..])
               else if b <= other then Get(y, other[|b|..]) else None
  {
    if other != [] {
      GetHang(a[1..], x, other[1..]);
      GetHang(b[1..], y, other[1..]);
      PrefixStep(a, other);
      PrefixStep(b, other);
      assert a <= other ==> other[1..][|a[1..]|..] == other[|a|..];
      assert b <= other ==> other[1..][|b[1..]|..] == other[|b|..];
    }
  }

  lemma PrefixStep(a: Key, b: Key)
    requires a != [] && b != []
    ensures a <= b <==> a[0] == b[0] && a[1..] <= b[1..]
  {
    if a[0] == b[0] && a[1..] <= b[1..] {
      assert a == [a[0]] + a[1..] && b == [b[0]] + b[1..];
    }
  }

  /** Splitting a key leaves its prefixes where they were. */
  lemma PrefixSplit(key: Key, n: nat, other: Key)
    requires n <= |key|
    ensures key <= other <==> key[..n] <= other && key[n..] <= other[n..]
    ensures key <= other ==> other[n..][|key| - n..] == other[|key|..]
  {
    assert key == key[..n] + key[n..];
    if key[..n] <= other && key[n..] <= other[n..] {
      assert other == other[..n] + other[n..];
    }
  }

  lemma TerminatedPrefix(a: Key, b: Key)
    requires Terminated(a) && Terminated(b)
    ensures a <= b <==> a == b
  {
    if a <= b {
      assert b[|a| - 1] == a[|a| - 1];
    }
  }

  /** Insertion changes the lookup of its own key, to the new value, and of no other. */
  lemma {:induction false} InsertGet(t: Tree, key: Key, v: Bytes, other: Key)
    requires Canonical(t) && Terminated(key) && Terminated(other)
    ensures Get(Insert(t, key, v), other) == if other == key then Some(v) else Get(t, other)
    decreases t, 1
  {
    TerminatedPrefix(key, other);
    match t
    case Empty =>
    case Short(k, val) =>
      InsertShortGet(k, val, key, v, other);
    case Full(children) =>
      if other[0] == key[0] {
        assert other == [other[0]] + other[1..] && key == [key[0]] + key[1..];
        if key[0] != TERMINATOR && other[0] != TERMINATOR {
          SuffixTerminated(key, 1);
          SuffixTerminated(other, 1);
          InsertGet(children[key[0]], key[1..], v, other[1..]);
        }
      }
  }

  lemma {:induction false} InsertShortGet(k: Key, val: Tree, key: Key, v: Bytes, other: Key)
    requires Canonical(Short(k, val)) && Terminated(key) && Terminated(other)
    ensures Get(Insert(Short(k, val), key, v), other) == if other == key then Some(v) else Get(Short(k, val), other)
    decreases Short(k, val), 0
  {
    var n := PrefixLen(key, k);
    if n == |k| {
      ShortWhole(key, k, val);
      assert k <= key;
      if k <= other {
        ShortWhole(other, k, val);
        assert key == k + key[n..] && other == k + other[n..];
        if n < |key| {
          SuffixTerminated(key, n);
          SuffixTerminated(other, n);
          InsertGet(val, key[n..], v, other[n..]);
        }
      }
    } else {
      ShortParts(key, k, val);
      PartsGet(k, val, key, v, other);
    }
  }

  /** Two keys that part at the n-th nibble, put under a branch there. */
  lemma PartsGet(k: Key, val: Tree, key: Key, v: Bytes, other: Key)
    requires var n := PrefixLen(key, k); n < |k| && n < |key|
    requires Terminated(key) && Terminated(other)
    ensures
      var n := PrefixLen(key, k);
      Get(Hang(key[..n], Branch(k[n..], val, key[n..], Value(v))), other)
      == if other == key then Some(v) else Get(Short(k, val), other)
  {
    hide Branch, Hang;
    var n := PrefixLen(key, k);
    TerminatedPrefix(key, other);
    GetHang(key[..n], Branch(k[n..], val, key[n..], Value(v)), other);
    PrefixSplit(key, n, other);
    PrefixSplit(k, n, other);
    if key[..n] <= other {
      GetBranch(k[n..], val, key[n..], Value(v), other[n..]);
      if key <= other {
        assert !(k[n..] <= other[n..]) by {
          assert other[n] == key[n];
        }
      }
    }
  }

  // ------------------------------------------------------------ deletion

  /** The first child at or after `from`; 17 when there is none. */
  function NextChild(children: seq<Tree>, from: nat): (i: nat)
    requires from <= |children|
    ensures from <= i <= |children|
    ensures forall k :: from <= k < i ==> children[k].Empty?
    ensures i < |children| ==> !children[i].Empty?
    decreases |children| - from
  {
    if from == |children| || !children[from].Empty? then from else NextChild(children, from + 1)
  }

  /** A full node with a single child becomes a short node, which swallows a short child. */
  function Reduce(children: seq<Tree>): Tree {
    var i := NextChild(children, 0);
    if i == |children| || i > 16 || NextChild(children, i + 1) < |children| then Full(children)
    else Prefixed([i], children[i])
  }

  /** A key in front of a subtree, merged with the subtree's own. */
  function Prefixed(key: Key, t: Tree): Tree {
    if t.Short? then Short(key + t.key, t.val) else Short(key, t)
  }

  function Delete(t: Tree, key: Key): Tree {
    match t
    case Empty => Empty
    case Value(_) => Empty
    case Short(k, val) =>
      var n := PrefixLen(key, k);
      if n < |k| then t
      else if n == |key| then Empty
      else Prefixed(k, Delete(val, key[n..]))
    case Full(children) =>
      if key == [] || key[0] >= |children| then t
      else Reduce(children[key[0] := Delete(children[key[0]], key[1..])])
  }

  /** The children a full node may have, however few. */
  predicate Children(children: seq<Tree>) {
    && |children| == 17
    && (forall k :: 0 <= k < 16 ==> Canonical(children[k]))
    && (children[16].Empty? || Leaf(children[16]))
  }

  lemma PrefixedCanonical(key: Key, t: Tree)
    requires key != [] && Plain(key) && Canonical(t) && !t.Empty?
    ensures Canonical(Prefixed(key, t))
  {
    if t.Short? && Terminated(t.key) {
      var whole := key + t.key;
      assert whole[|whole| - 1] == t.key[|t.key| - 1];
      assert forall k :: 0 <= k < |whole| - 1 ==> whole[k] == if k < |key| then key[k] else t.key[k - |key|];
    }
  }

  lemma ReduceCanonical(children: seq<Tree>, at: nat)
    requires Children(children) && at < 17 && !children[at].Empty?
    ensures Canonical(Reduce(children)) && !Reduce(children).Empty?
  {
    var i := NextChild(children, 0);
    var j := NextChild(children, i + 1);
    if j < |children| {
      assert Crowded(children);
    } else if i == 16 {
      assert Leaf(children[16]);
    } else {
      PrefixedCanonical([i], children[i]);
    }
  }

  lemma GetPrefixed(key: Key, t: Tree, other: Key)
    ensures Get(Prefixed(key, t), other) == Get(Short(key, t), other)
  {
    if t.Short? {
      var whole := key + t.key;
      PrefixSplit(whole, |key|, other);
      assert whole[..|key|] == key && whole[|key|..] == t.key;
    }
  }

  /** Reducing a full node loses nothing and adds nothing. */
  lemma ReduceGet(children: seq<Tree>, other: Key)
    requires |children| == 17 && other != []
    ensures Get(Reduce(children), other) == Get(children[other[0]], other[1..])
  {
    var i := NextChild(children, 0);
    if i < 17 && NextChild(children, i + 1) == 17 {
      GetPrefixed([i], children[i], other);
      assert [i] <= other <==> other[0] == i;
    }
  }

  lemma OneLeft(children: seq<Tree>, at: nat, child: Tree) returns (left: nat)
    requires Crowded(children) && at < |children|
    ensures left < |children| && !children[at := child][left].Empty?
  {
    var i, j :| 0 <= i < j < |children| && !children[i].Empty? && !children[j].Empty?;
    left := if i == at then j else i;
  }

  /** Deletion keeps the minimal form, and never empties a full node. */
  lemma {:induction false} DeleteCanonical(t: Tree, key: Key)
    requires Canonical(t) && Terminated(key)
    ensures Canonical(Delete(t, key))
    ensures t.Full? ==> !Delete(t, key).Empty?
    decreases t
  {
    match t
    case Empty =>
    case Short(k, val) =>
      var n := PrefixLen(key, k);
      if n == |k| {
        ShortWhole(key, k, val);
        if n < |key| {
          SuffixTerminated(key, n);
          DeleteCanonical(val, key[n..]);
          PrefixedCanonical(k, Delete(val, key[n..]));
        }
      }
    case Full(children) =>
      if key[0] != TERMINATOR {
        SuffixTerminated(key, 1);
        DeleteCanonical(children[key[0]], key[1..]);
      }
      var child := Delete(children[key[0]], key[1..]);
      var left := OneLeft(children, key[0], child);
      ReduceCanonical(children[key[0] := child], left);
  }

  /** Deletion removes its own key, and no other. */
  lemma {:induction false} DeleteGet(t: Tree, key: Key, other: Key)
    requires Canonical(t) && Terminated(key) && Terminated(other)
    ensures Get(Delete(t, key), other) == if other == key then None else Get(t, other)
    decreases t
  {
    match t
    case Empty =>
    case Short(k, val) =>
      var n := PrefixLen(key, k);
      TerminatedPrefix(key, other);
      if n == |k| {
        ShortWhole(key, k, val);
        assert key == k + key[n..];
        if n < |key| {
          GetPrefixed(k, Delete(val, key[n..]), other);
          if k <= other {
            ShortWhole(other, k, val);
            assert other == k + other[n..];
            SuffixTerminated(key, n);
            SuffixTerminated(other, n);
            DeleteGet(val, key[n..], other[n..]);
          }
        }
      }
    case Full(children) =>
      var child := Delete(children[key[0]], key[1..]);
      ReduceGet(children[key[0] := child], other);
      if other[0] == key[0] {
        assert other == [other[0]] + other[1..] && key == [key[0]] + key[1..];
        if key[0] != TERMINATOR {
          SuffixTerminated(key, 1);
          SuffixTerminated(other, 1);
          DeleteGet(children[key[0]], key[1..], other[1..]);
        }
      }
  }

  /** Deleting what is not there, and inserting what is, leave the tree as it is. */
  lemma {:induction false} DeleteAbsent(t: Tree, key: Key)
    requires Canonical(t) && Terminated(key) && Get(t, key).None?
    ensures Delete(t, key) == t
    decreases t
  {
    match t
    case Empty =>
    case Short(k, val) =>
      var n := PrefixLen(key, k);
      if n == |k| {
        ShortWhole(key, k, val);
        if n < |key| {
          SuffixTerminated(key, n);
          DeleteAbsent(val, key[n..]);
        }
      }
    case Full(children) =>
      if key[0] != TERMINATOR {
        SuffixTerminated(key, 1);
        DeleteAbsent(children[key[0]], key[1..]);
      }
      assert children[key[0] := children[key[0]]] == children;
      var i, j :| 0 <= i < j < |children| && !children[i].Empty? && !children[j].Empty?;
  }

  lemma {:induction false} InsertPresent(t: Tree, key: Key, v: Bytes)
    requires Canonical(t) && Terminated(key) && Get(t, key) == Some(v)
    ensures Insert(t, key, v) == t
    decreases t
  {
    match t
    case Short(k, val) =>
      var n := PrefixLen(key, k);
      if n == |k| {
        ShortWhole(key, k, val);
        if n < |key| {
          SuffixTerminated(key, n);
          InsertPresent(val, key[n..], v);
        }
      }
    case Full(children) =>
      if key[0] != TERMINATOR {
        SuffixTerminated(key, 1);
        InsertPresent(children[key[0]], key[1..], v);
      }
      assert children[key[0] := children[key[0]]] == children;
  }

  // ------------------------------------------------------------ one tree for each content

  ghost predicate SameContents(a: Tree, b: Tree) {
    forall key :: Terminated(key) ==> Get(a, key) == Get(b, key)
  }

  lemma JoinTerminated(a: Key, b: Key)
    requires Plain(a) && Terminated(b)
    ensures Terminated(a + b) && a <= a + b && (a + b)[|a|..] == b
  {
    assert (a + b)[|a + b| - 1] == b[|b| - 1];
    assert forall k :: 0 <= k < |a + b| - 1 ==> (a + b)[k] == if k < |a| then a[k] else b[k - |a|];
  }

  /** A tree that is not empty holds a key. */
  lemma {:induction false} SomeKey(t: Tree) returns (key: Key)
    requires Canonical(t) && !t.Empty?
    ensures Terminated(key) && Get(t, key).Some?
    decreases t
  {
    match t
    case Short(k, val) =>
      if Terminated(k) {
        key := k;
      } else {
        var rest := SomeKey(val);
        JoinTerminated(k, rest);
        key := k + rest;
      }
    case Full(children) =>
      var i, j :| 0 <= i < j < |children| && !children[i].Empty? && !children[j].Empty?;
      key := KeyUnder(children, i);
  }

  /** A full node holds a key behind each of its children. */
  lemma {:induction false} KeyUnder(children: seq<Tree>, i: Nibble) returns (key: Key)
    requires Canonical(Full(children)) && !children[i].Empty?
    ensures Terminated(key) && key[0] == i && Get(Full(children), key).Some?
    decreases children, 0
  {
    if i == TERMINATOR {
      key := [TERMINATOR];
    } else {
      var rest := SomeKey(children[i]);
      JoinTerminated([i], rest);
      key := [i] + rest;
    }
  }

  /** The contents behind a nibble are the child's contents. */
  lemma GetChild(children: seq<Tree>, i: Nibble, key: Key)
    requires |children| == 17 && i != TERMINATOR && Terminated(key)
    ensures Terminated([i] + key) && Get(Full(children), [i] + key) == Get(children[i], key)
  {
    JoinTerminated([i], key);
  }

  lemma GetLast(children: seq<Tree>)
    requires |children| == 17 && (children[16].Empty? || Leaf(children[16]))
    ensures Terminated([TERMINATOR])
    ensures Get(Full(children), [TERMINATOR]) == if children[16].Empty? then None else Some(children[16].bytes)
  {
    assert [TERMINATOR][1..] == [];
  }

  lemma SameChild(a: seq<Tree>, b: seq<Tree>, i: Nibble)
    requires Canonical(Full(a)) && Canonical(Full(b)) && SameContents(Full(a), Full(b))
    ensures i != TERMINATOR ==> SameContents(a[i], b[i])
    ensures i == TERMINATOR ==> a[i] == b[i]
  {
    if i == TERMINATOR {
      GetLast(a);
      GetLast(b);
    } else {
      forall key | Terminated(key)
        ensures Get(a[i], key) == Get(b[i], key)
      {
        GetChild(a, i, key);
        GetChild(b, i, key);
      }
    }
  }

  lemma SameUnder(k: Key, a: Tree, b: Tree)
    requires Plain(k) && SameContents(Short(k, a), Short(k, b))
    ensures SameContents(a, b)
  {
    forall key | Terminated(key)
      ensures Get(a, key) == Get(b, key)
    {
      JoinTerminated(k, key);
      assert Get(Short(k, a), k + key) == Get(Short(k, b), k + key);
    }
  }

  /** A short node over a full one holds keys that part right behind its own key. */
  lemma KeysPart(k: Key, val: Tree) returns (x: Key, y: Key)
    requires Canonical(Short(k, val)) && !Terminated(k)
    ensures Terminated(x) && Terminated(y) && k <= x && k <= y && |k| < |x| && |k| < |y| && x[|k|] != y[|k|]
    ensures Get(Short(k, val), x).Some? && Get(Short(k, val), y).Some?
  {
    var i, j :| 0 <= i < j < |val.children| && !val.children[i].Empty? && !val.children[j].Empty?;
    var a := KeyUnder(val.children, i);
    var b := KeyUnder(val.children, j);
    JoinTerminated(k, a);
    JoinTerminated(k, b);
    x, y := k + a, k + b;
  }

  /** The key of a short node can be read off its contents. */
  lemma ShortKeyWithin(k: Key, a: Tree, l: Key, b: Tree)
    requires Canonical(Short(k, a)) && Canonical(Short(l, b)) && SameContents(Short(k, a), Short(l, b))
    ensures l <= k
  {
    if Terminated(k) {
      assert Get(Short(k, a), k).Some?;
      assert l <= k;
    } else {
      var x, y := KeysPart(k, a);
      assert l <= x && l <= y;
    }
  }

  lemma ShortIsNotFull(k: Key, a: Tree, children: seq<Tree>)
    requires Canonical(Short(k, a)) && Canonical(Full(children))
    ensures !SameContents(Short(k, a), Full(children))
  {
    var i, j :| 0 <= i < j < |children| && !children[i].Empty? && !children[j].Empty?;
    var x := KeyUnder(children, i);
    var y := KeyUnder(children, j);
    assert k <= x ==> k[0] == x[0];
    assert k <= y ==> k[0] == y[0];
  }

  lemma GetLeaf(t: Tree)
    requires t.Short? && Canonical(t) && Terminated(t.key)
    ensures Get(t, t.key) == Some(t.val.bytes) && t.val.Value?
  {
    assert t.key[|t.key|..] == [];
  }

  /** Canonical trees with the same contents are the same tree. */
  lemma {:induction false} SameTree(a: Tree, b: Tree)
    requires Canonical(a) && Canonical(b) && SameContents(a, b)
    ensures a == b
    decreases a
  {
    if a.Empty? || b.Empty? {
      if !a.Empty? {
        var key := SomeKey(a);
      } else if !b.Empty? {
        var key := SomeKey(b);
      }
    } else if a.Short? && b.Short? {
      ShortKeyWithin(a.key, a.val, b.key, b.val);
      ShortKeyWithin(b.key, b.val, a.key, a.val);
      assert a.key == b.key;
      if Terminated(a.key) {
        GetLeaf(a);
        GetLeaf(b);
      } else {
        SameUnder(a.key, a.val, b.val);
        SameTree(a.val, b.val);
      }
    } else if a.Short? {
      ShortIsNotFull(a.key, a.val, b.children);
    } else if b.Short? {
      ShortIsNotFull(b.key, b.val, a.children);
    } else {
      forall i | 0 <= i < 17
        ensures a.children[i] == b.children[i]
      {
        SameChild(a.children, b.children, i);
        if i < 16 {
          SameTree(a.children[i], b.children[i]);
        }
      }
      assert a.children == b.children;
    }
  }

  // ------------------------------------------------------------ byte keys and whole histories

  /** The nibbles of a byte key, terminated. */
  function Hex(key: Bytes): (h: Key)
    ensures |h| == 2 * |key| + 1 && Terminated(h)
  {
    if key == [] then [TERMINATOR]
    else
      var rest := Hex(key[1..]);
      JoinTerminated([key[0] / 16, key[0] % 16], rest);
      [key[0] / 16, key[0] % 16] + rest
  }

  lemma {:induction false} HexInjective(a: Bytes, b: Bytes)
    requires Hex(a) == Hex(b)
    ensures a == b
  {
    if a != [] && b != [] {
      var x: seq<int>, y: seq<int> := Hex(a), Hex(b);
      assert x[2..] == Hex(a[1..]) && y[2..] == Hex(b[1..]);
      HexInjective(a[1..], b[1..]);
      assert a[0] == x[0] * 16 + x[1] && b[0] == y[0] * 16 + y[1];
      assert a == [a[0]] + a[1..] && b == [b[0]] + b[1..];
    }
  }

  datatype Update = Update(key: Bytes, value: Bytes)

  /** An update with an empty value deletes. */
  function Apply(t: Tree, u: Update): Tree {
    if u.value != [] then Insert(t, Hex(u.key), u.value) else Delete(t, Hex(u.key))
  }

  function Run(updates: seq<Update>): Tree {
    if updates == [] then Empty
    else Apply(Run(updates[..|updates| - 1]), updates[|updates| - 1])
  }

  /** What a history leaves in an ordinary map. */
  function Ledger(updates: seq<Update>): map<Bytes, Bytes> {
    if updates == [] then map[]
    else
      var before, u := Ledger(updates[..|updates| - 1]), updates[|updates| - 1];
      if u.value != [] then before[u.key := u.value] else before - {u.key}
  }

  function Lookup(m: map<Bytes, Bytes>, key: Bytes): Option<Bytes> {
    if key in m then Some(m[key]) else None
  }

  /** The tree holds the map's entries under their nibbles, and nothing else. */
  ghost predicate Holds(t: Tree, m: map<Bytes, Bytes>) {
    && (forall key :: Get(t, Hex(key)) == Lookup(m, key))
    && (forall h :: Terminated(h) && Get(t, h).Some? ==> exists key :: h == Hex(key))
  }

  /** Each update changes the lookup of its key only. */
  lemma ApplyGet(t: Tree, u: Update, h: Key)
    requires Canonical(t) && Terminated(h)
    ensures Canonical(Apply(t, u))
    ensures Get(Apply(t, u), h)
            == if h == Hex(u.key) then (if u.value == [] then None else Some(u.value)) else Get(t, h)
  {
    if u.value != [] {
      InsertCanonical(t, Hex(u.key), u.value);
      InsertGet(t, Hex(u.key), u.value, h);
    } else {
      DeleteCanonical(t, Hex(u.key));
      DeleteGet(t, Hex(u.key), h);
    }
  }

  lemma {:induction false} RunHolds(updates: seq<Update>)
    ensures Canonical(Run(updates)) && Holds(Run(updates), Ledger(updates))
  {
    if updates != [] {
      var before, u := updates[..|updates| - 1], updates[|updates| - 1];
      RunHolds(before);
      forall key
        ensures Get(Run(updates), Hex(key)) == Lookup(Ledger(updates), key)
      {
        ApplyGet(Run(before), u, Hex(key));
        if Hex(key) == Hex(u.key) {
          HexInjective(key, u.key);
        }
      }
      forall h | Terminated(h) && Get(Run(updates), h).Some?
        ensures exists key :: h == Hex(key)
      {
        ApplyGet(Run(before), u, h);
      }
      ApplyGet(Run(before), u, Hex(u.key));
    }
  }

  lemma HeldOnce(a: Tree, b: Tree, m: map<Bytes, Bytes>)
    requires Canonical(a) && Canonical(b) && Holds(a, m) && Holds(b, m)
    ensures a == b
  {
    forall h | Terminated(h)
      ensures Get(a, h) == Get(b, h)
    {
      if key :| h == Hex(key) {
        assert Get(a, Hex(key)) == Get(b, Hex(key));
      }
    }
    SameTree(a, b);
  }

  /** Any two histories that leave the same map leave the same tree. */
  lemma HistoryIndependent(a: seq<Update>, b: seq<Update>)
    requires Ledger(a) == Ledger(b)
    ensures Run(a) == Run(b)
  {
    RunHolds(a);
    RunHolds(b);
    HeldOnce(Run(a), Run(b), Ledger(a));
  }
}
