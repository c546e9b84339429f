/**
 The configuration tree handed to the logger's `configure` handler and the
 sequence of table writes its depth-first traversal performs.

 A node has a value string and an ordered list of (key, child) entries;
 keys need not be unique. Every node below the root is addressed by a
 position, the list of child indices leading to it from the root; this
 gives a description of the traversal independent of its recursion.
 */
module ConfigTree {
  import opened Text
  import opened GateTable

  datatype Tree = Tree(value: string, children: seq<Entry>)
  datatype Entry = Entry(key: string, child: Tree)

  /** The path of a child with key `key` under a node whose path is `prefix` (an empty prefix adds no dot). */
  function JoinKey(prefix: string, key: string): (path: string)
  {
    if prefix == "" then key else prefix + "." + key
  }

  /** The number of nodes in the subtrees of the first `n` children of `t`. */
  function Count(t: Tree, n: nat): (c: nat)
    requires n <= |t.children|
    decreases t, n
  {
    if n == 0 then 0
    else
      var c := t.children[n - 1].child;
      Count(t, n - 1) + 1 + Count(c, |c.children|)
  }

  /**
   The writes the traversal of the first `n` children of `t` performs when
   `t`'s path is `prefix`: for each child in order, its own path and parsed
   value, then everything below it (pre-order). One write per node.
   */
  function Writes(prefix: string, t: Tree, n: nat): (ws: seq<Write>)
    requires n <= |t.children|
    decreases t, n
  {
    if n == 0 then []
    else
      var e := t.children[n - 1];
      var path := JoinKey(prefix, e.key);
      Writes(prefix, t, n - 1) + [Write(path, e.child.value)] + Writes(path, e.child, |e.child.children|)
  }

  /** All writes of one load: every node below the root, in pre-order; the root's own value is not written. */
  function Flatten(root: Tree): (ws: seq<Write>)
  {
    Writes("", root, |root.children|)
  }

  /** The gate table one load of `root` produces, starting from the cleared table. */
  function Load(hash: string -> u64, root: Tree): (m: Table)
  {
    Apply(hash, map[], Flatten(root))
  }

  /** Whether `pos` leads from `t` to a node, one child index per level. */
  predicate ValidPos(t: Tree, pos: seq<nat>)
    decreases |pos|
  {
    pos == [] || (pos[0] < |t.children| && ValidPos(t.children[pos[0]].child, pos[1..]))
  }

  /** The node at `pos`. */
  function NodeAt(t: Tree, pos: seq<nat>): (n: Tree)
    requires ValidPos(t, pos)
    decreases |pos|
  {
    if pos == [] then t else NodeAt(t.children[pos[0]].child, pos[1..])
  }

  /** The dot-joined path of the node at a non-empty `pos`, when `t`'s own path is `prefix`. */
  function PathAt(prefix: string, t: Tree, pos: seq<nat>): (path: string)
    requires ValidPos(t, pos) && pos != []
    decreases |pos|
  {
    var e := t.children[pos[0]];
    var path := JoinKey(prefix, e.key);
    if |pos| == 1 then path else PathAt(path, e.child, pos[1..])
  }

  /** The index of the write for the node at `pos` in `Writes(_, t, |t.children|)`. */
  function IndexOf(t: Tree, pos: seq<nat>): (i: nat)
    requires ValidPos(t, pos) && pos != []
    decreases |pos|
  {
    var c := t.children[pos[0]].child;
    Count(t, pos[0]) + if |pos| == 1 then 0 else 1 + IndexOf(c, pos[1..])
  }

  /** One write per node: the writes for the first `n` children number the nodes of their subtrees. */
  lemma {:induction false} WritesLength(prefix: string, t: Tree, n: nat)
    requires n <= |t.children|
    ensures |Writes(prefix, t, n)| == Count(t, n)
    decreases Count(t, n)
  {
    if n > 0 {
      var e := t.children[n - 1];
      var path := JoinKey(prefix, e.key);
      var before, below := Writes(prefix, t, n - 1), Writes(path, e.child, |e.child.children|);
      WritesLength(prefix, t, n - 1);
      WritesLength(path, e.child, |e.child.children|);
      assert Writes(prefix, t, n) == before + [Write(path, e.child.value)] + below;
      assert Count(t, n) == Count(t, n - 1) + 1 + Count(e.child, |e.child.children|);
    }
  }

  /** Fewer children have no more nodes below them. */
  lemma {:induction false} CountMono(t: Tree, m: nat, n: nat)
    requires m <= n <= |t.children|
    ensures Count(t, m) <= Count(t, n)
    decreases n
  {
    if m < n {
      CountMono(t, m, n - 1);
    }
  }

  /** The subtree of one child has fewer nodes than the subtrees of all children together. */
  lemma ChildCountSmaller(t: Tree, i: nat)
    requires i < |t.children|
    ensures var c := t.children[i].child; Count(c, |c.children|) < Count(t, |t.children|)
  {
    CountMono(t, i + 1, |t.children|);
  }

  /** Traversing fewer children performs a prefix of the writes of traversing more. */
  lemma WritesPrefix(prefix: string, t: Tree, m: nat, n: nat)
    requires m <= n <= |t.children|
    ensures Writes(prefix, t, m) <= Writes(prefix, t, n)
  {
    var runs := (i: nat) => if i <= |t.children| then Writes(prefix, t, i) else [];
    WritesExtendAll(prefix, t);
    PrefixChain(runs, m, n);
  }

  /** Every child traversed only appends writes. */
  lemma WritesExtendAll(prefix: string, t: Tree)
    ensures forall i :: 0 <= i < |t.children| ==> Writes(prefix, t, i) <= Writes(prefix, t, i + 1)
  {
    forall i | 0 <= i < |t.children|
      ensures Writes(prefix, t, i) <= Writes(prefix, t, i + 1)
    {
      WritesExtend(prefix, t, i);
    }
  }

  /** In a chain of sequences each a prefix of the next, every earlier one is a prefix of every later one. */
  lemma {:induction false} PrefixChain<T>(runs: nat -> seq<T>, m: nat, n: nat)
    requires m <= n
    requires forall i :: m <= i < n ==> runs(i) <= runs(i + 1)
    ensures runs(m) <= runs(n)
    decreases n
  {
    if m < n {
      PrefixChain(runs, m, n - 1);
      PrefixTrans(runs(m), runs(n - 1), runs(n));
    }
  }

  /** Traversing one more child only appends writes. */
  lemma WritesExtend(prefix: string, t: Tree, n: nat)
    requires n < |t.children|
    ensures Writes(prefix, t, n) <= Writes(prefix, t, n + 1)
  {
    var e := t.children[n];
    var path := JoinKey(prefix, e.key);
    assert Writes(prefix, t, n + 1) == Writes(prefix, t, n) + ([Write(path, e.child.value)] + Writes(path, e.child, |e.child.children|));
  }

  /** Being a prefix is transitive. */
  lemma PrefixTrans<T>(a: seq<T>, b: seq<T>, c: seq<T>)
    requires a <= b && b <= c
    ensures a <= c
  {
    assert c[..|a|] == b[..|a|];
  }

  /** The write for child `j` of `t` sits at index `Count(t, j)` of all writes for `t`'s children. */
  lemma ChildWrite(prefix: string, t: Tree, j: nat)
    requires j < |t.children|
    ensures Count(t, j) < |Writes(prefix, t, |t.children|)|
    ensures Writes(prefix, t, |t.children|)[Count(t, j)] ==
              Write(JoinKey(prefix, t.children[j].key), t.children[j].child.value)
  {
    WritesPrefix(prefix, t, j + 1, |t.children|);
    WritesLength(prefix, t, j);
  }

  /** The writes for the subtree of child `j` follow the child's own write. */
  lemma BelowChildWrite(prefix: string, t: Tree, j: nat, k: nat)
    requires j < |t.children|
    requires var c := t.children[j].child; k < |Writes(JoinKey(prefix, t.children[j].key), c, |c.children|)|
    ensures var c := t.children[j].child;
            && Count(t, j) + 1 + k < |Writes(prefix, t, |t.children|)|
            && Writes(prefix, t, |t.children|)[Count(t, j) + 1 + k] ==
               Writes(JoinKey(prefix, t.children[j].key), c, |c.children|)[k]
  {
    var c, path := t.children[j].child, JoinKey(prefix, t.children[j].key);
    WritesPrefix(prefix, t, j + 1, |t.children|);
    WritesLength(prefix, t, j);
    assert Writes(prefix, t, j + 1) == Writes(prefix, t, j) + [Write(path, c.value)] + Writes(path, c, |c.children|);
    IndexPastSingle(Writes(prefix, t, |t.children|), Writes(prefix, t, j), Write(path, c.value), Writes(path, c, |c.children|), k);
  }

  /** In a sequence that starts with `before`, `x`, `below`, element `k` of `below` sits at `|before| + 1 + k`. */
  lemma IndexPastSingle<T>(all: seq<T>, before: seq<T>, x: T, below: seq<T>, k: nat)
    requires before + [x] + below <= all && k < |below|
    ensures |before| + 1 + k < |all| && all[|before| + 1 + k] == below[k]
  {
    assert (before + [x] + below)[|before| + 1 + k] == below[k];
  }

  /**
   Every node below `t` is written exactly at its index, under its own path
   and with its own value parsed, whether it is a leaf or an interior node.
   */
  lemma {:induction false} WriteAt(prefix: string, t: Tree, pos: seq<nat>)
    requires ValidPos(t, pos) && pos != []
    ensures IndexOf(t, pos) < |Writes(prefix, t, |t.children|)|
    ensures Writes(prefix, t, |t.children|)[IndexOf(t, pos)] == Write(PathAt(prefix, t, pos), NodeAt(t, pos).value)
    decreases |pos|
  {
    var e := t.children[pos[0]];
    if |pos| == 1 {
      ChildWrite(prefix, t, pos[0]);
    } else {
      var path, k := JoinKey(prefix, e.key), IndexOf(e.child, pos[1..]);
      assert IndexOf(t, pos) == Count(t, pos[0]) + 1 + k;
      assert PathAt(prefix, t, pos) == PathAt(path, e.child, pos[1..]);
      assert NodeAt(t, pos) == NodeAt(e.child, pos[1..]);
      WriteAt(path, e.child, pos[1..]);
      BelowChildWrite(prefix, t, pos[0], k);
    }
  }

  /** The position whose write sits at index `i` of the writes for the first `n` children of `t`. */
  function PositionOf(t: Tree, n: nat, i: nat): (pos: seq<nat>)
    requires n <= |t.children| && i < Count(t, n)
    ensures ValidPos(t, pos) && pos != [] && pos[0] < n && IndexOf(t, pos) == i
    decreases t, n
  {
    var c := t.children[n - 1].child;
    if i < Count(t, n - 1) then PositionOf(t, n - 1, i)
    else if i == Count(t, n - 1) then [n - 1]
    else
      var rest := PositionOf(c, |c.children|, i - Count(t, n - 1) - 1);
      assert ([n - 1] + rest)[1..] == rest;
      [n - 1] + rest
  }

  /** A position that extends a valid position on the right extends a valid one. */
  lemma {:induction false} ValidPosPrefix(t: Tree, pos: seq<nat>, ext: seq<nat>)
    requires ValidPos(t, pos + ext)
    ensures ValidPos(t, pos)
    decreases |pos|
  {
    if pos != [] {
      assert (pos + ext)[1..] == pos[1..] + ext;
      ValidPosPrefix(t.children[pos[0]].child, pos[1..], ext);
    }
  }

  /** Pre-order: a node is written before every node below it. */
  lemma {:induction false} ParentWrittenFirst(t: Tree, pos: seq<nat>, ext: seq<nat>)
    requires ValidPos(t, pos + ext) && pos != [] && ext != []
    ensures ValidPos(t, pos) && IndexOf(t, pos) < IndexOf(t, pos + ext)
    decreases |pos|
  {
    ValidPosPrefix(t, pos, ext);
    assert (pos + ext)[0] == pos[0];
    assert (pos + ext)[1..] == pos[1..] + ext;
    if |pos| > 1 {
      ParentWrittenFirst(t.children[pos[0]].child, pos[1..], ext);
    }
  }

  /** A child's path is its key joined to its parent's path, with no dot under an empty parent path. */
  lemma {:induction false} PathOfChild(prefix: string, t: Tree, pos: seq<nat>, j: nat)
    requires ValidPos(t, pos + [j]) && pos != []
    ensures ValidPos(t, pos) && j < |NodeAt(t, pos).children|
    ensures PathAt(prefix, t, pos + [j]) == JoinKey(PathAt(prefix, t, pos), NodeAt(t, pos).children[j].key)
    decreases |pos|
  {
    ValidPosPrefix(t, pos, [j]);
    assert (pos + [j])[0] == pos[0];
    assert (pos + [j])[1..] == pos[1..] + [j];
    var e := t.children[pos[0]];
    if |pos| > 1 {
      PathOfChild(JoinKey(prefix, e.key), e.child, pos[1..], j);
    } else {
      assert pos[1..] + [j] == [j];
    }
  }

  /** The keys of a loaded table are exactly the hashes of the paths of the nodes below the root. */
  lemma LoadKeys(hash: string -> u64, root: Tree, k: u64)
    ensures k in Load(hash, root) <==> exists pos :: ValidPos(root, pos) && pos != [] && hash(PathAt("", root, pos)) == k
  {
    var ws := Flatten(root);
    ApplyKeys(hash, map[], ws);
    WritesLength("", root, |root.children|);
    if k in Load(hash, root) {
      var w :| w in ws && hash(w.path) == k;
      var i :| 0 <= i < |ws| && ws[i] == w;
      var pos := PositionOf(root, |root.children|, i);
      WriteAt("", root, pos);
    }
    if exists pos :: ValidPos(root, pos) && pos != [] && hash(PathAt("", root, pos)) == k {
      var pos :| ValidPos(root, pos) && pos != [] && hash(PathAt("", root, pos)) == k;
      WriteAt("", root, pos);
      assert ws[IndexOf(root, pos)] in ws;
    }
  }

  /**
   The node at `pos` decides the table entry for its path's hash unless a
   node written after it has a path with the same hash (later writes win).
   */
  lemma LoadValue(hash: string -> u64, root: Tree, pos: seq<nat>)
    requires ValidPos(root, pos) && pos != []
    requires forall q :: ValidPos(root, q) && q != [] && IndexOf(root, q) > IndexOf(root, pos) ==>
               hash(PathAt("", root, q)) != hash(PathAt("", root, pos))
    ensures hash(PathAt("", root, pos)) in Load(hash, root)
    ensures Load(hash, root)[hash(PathAt("", root, pos))] == ParseBool(NodeAt(root, pos).value)
  {
    var ws := Flatten(root);
    WritesLength("", root, |root.children|);
    var i := IndexOf(root, pos);
    WriteAt("", root, pos);
    forall j | i < j < |ws|
      ensures hash(ws[j].path) != hash(ws[i].path)
    {
      var q := PositionOf(root, |root.children|, j);
      WriteAt("", root, q);
    }
    ApplyLastWins(hash, map[], ws, i);
  }

  /** The node at `pos` is the last one written whose path hashes to `k`. */
  ghost predicate LastWriteTo(hash: string -> u64, root: Tree, pos: seq<nat>, k: u64)
  {
    && ValidPos(root, pos) && pos != []
    && hash(PathAt("", root, pos)) == k
    && forall q :: ValidPos(root, q) && q != [] && IndexOf(root, q) > IndexOf(root, pos) ==> hash(PathAt("", root, q)) != k
  }

  /** Every key of a loaded table holds the parsed value of the last node written under it. */
  lemma LoadEntry(hash: string -> u64, root: Tree, k: u64)
    requires k in Load(hash, root)
    ensures exists pos :: LastWriteTo(hash, root, pos, k) && Load(hash, root)[k] == ParseBool(NodeAt(root, pos).value)
  {
    var ws := Flatten(root);
    ApplyKeys(hash, map[], ws);
    WritesLength("", root, |root.children|);
    var i := LastWriteIndex(hash, ws, k);
    var pos := PositionOf(root, |root.children|, i);
    WriteAt("", root, pos);
    forall q | ValidPos(root, q) && q != [] && IndexOf(root, q) > IndexOf(root, pos)
      ensures hash(PathAt("", root, q)) != k
    {
      WriteAt("", root, q);
    }
    LoadValue(hash, root, pos);
    assert LastWriteTo(hash, root, pos, k);
  }

  /**
   One round of the traversal loop: storing child `i` and then performing
   the writes of its subtree is performing the writes for children `0..i`.
   */
  lemma WritesStep(hash: string -> u64, start: Table, prefix: string, t: Tree, i: nat)
    requires i < |t.children|
    ensures var e := t.children[i];
            var path := JoinKey(prefix, e.key);
            Apply(hash, Apply(hash, start, Writes(prefix, t, i))[hash(path) := ParseBool(e.child.value)],
                  Writes(path, e.child, |e.child.children|))
            == Apply(hash, start, Writes(prefix, t, i + 1))
  {
    var e := t.children[i];
    var path := JoinKey(prefix, e.key);
    var done, w := Writes(prefix, t, i), Write(path, e.child.value);
    ApplySnoc(hash, start, done, w);
    ApplyConcat(hash, start, done + [w], Writes(path, e.child, |e.child.children|));
  }
}
