/**
 The node logger's gate: a table of explicit overrides filled by the
 `configure` handler, and the `test` overloads that decide, for a category
 path given as segments, whether an event of that category is logged.
 */
module Logging {
  import opened Text
  import opened GateTable
  import opened ConfigTree

  /** `prefix` followed by "." and each segment of `segs` in turn: the keys the evaluator builds. */
  function DotJoin(prefix: string, segs: seq<string>): (key: string)
    decreases |segs|
  {
    if segs == [] then prefix else DotJoin(prefix, segs[..|segs| - 1]) + "." + segs[|segs| - 1]
  }

  /** Joining `x` onto the prefix first and the remaining segments later builds the same key. */
  lemma {:induction false} DotJoinShift(prefix: string, x: string, segs: seq<string>)
    ensures DotJoin(prefix + "." + x, segs) == DotJoin(prefix, [x] + segs)
    decreases |segs|
  {
    if segs != [] {
      var init := segs[..|segs| - 1];
      DotJoinShift(prefix, x, init);
      assert ([x] + segs)[..|segs|] == [x] + init;
    } else {
      assert ([x] + segs)[..0] == [];
    }
  }

  /** The keys met one level down are the keys met here, past the first. */
  lemma DotJoinStep(prefix: string, rest: seq<string>)
    requires rest != []
    ensures forall k :: 0 <= k < |rest| ==> DotJoin(prefix + "." + rest[0], rest[1..][..k]) == DotJoin(prefix, rest[..k + 1])
  {
    forall k | 0 <= k < |rest|
      ensures DotJoin(prefix + "." + rest[0], rest[1..][..k]) == DotJoin(prefix, rest[..k + 1])
    {
      DotJoinStepAt(prefix, rest, k);
    }
  }

  /** `DotJoinStep` for one `k`: the key after the first `k + 1` segments, built one level down. */
  lemma DotJoinStepAt(prefix: string, rest: seq<string>, k: nat)
    requires k < |rest|
    ensures DotJoin(prefix + "." + rest[0], rest[1..][..k]) == DotJoin(prefix, rest[..k + 1])
  {
    var segs := rest[1..][..k];
    assert [rest[0]] + segs == rest[..k + 1];
    DotJoinShift(prefix, rest[0], segs);
  }

  class Logger {
    /** The path hash (`utils::fnv1a` in the source): any deterministic function of the path string. */
    const hash: string -> u64
    /** `_config`: explicit enable/disable overrides, keyed by path hash. */
    var config: Table

    constructor (hash: string -> u64)
      ensures this.hash == hash && config == map[]
    {
      this.hash := hash;
      config := map[];
    }

    /**
     The `configure` handler: clears the table, then stores the parsed value
     of every node below the root under the hash of its path, in pre-order.
     The result depends on `root` alone, so loading the same tree again gives
     the same table.
     */
    method Configure(root: Tree)
      modifies this
      ensures config == Load(hash, root)
    {
      config := map[];
      Traverse("", root);
    }

    /** The `traverse` recursion: one write per child, then the child's own subtree. */
    method Traverse(prefix: string, pt: Tree)
      modifies this
      ensures config == Apply(hash, old(config), Writes(prefix, pt, |pt.children|))
      decreases Count(pt, |pt.children|)
    {
      ghost var start := config;
      for i := 0 to |pt.children|
        invariant config == Apply(hash, start, Writes(prefix, pt, i))
      {
        var e := pt.children[i];
        var akey := JoinKey(prefix, e.key);
        WritesStep(hash, start, prefix, pt, i);
        ChildCountSmaller(pt, i);
        config := config[hash(akey) := ParseBool(e.child.value)];
        Traverse(akey, e.child);
      }
    }

    /** `test(key)`: the stored override for the key's hash, or `true` when there is none. */
    function Test(key: string): (r: bool)
      reads this
    {
      hash(key) !in config || config[hash(key)]
    }

    /**
     `test(prefix, head, tail...)` with `rest` = `[head] + tail` (and `test(key)`
     when `rest` is empty): the gate of `prefix` first, stopping at `false`,
     then the same for `prefix + "." + head` with the remaining segments. The
     path is enabled exactly when no joined prefix of it is disabled.
     */
    function TestChain(prefix: string, rest: seq<string>): (r: bool)
      reads this
      ensures r <==> forall k :: 0 <= k <= |rest| ==> Test(DotJoin(prefix, rest[..k]))
      decreases |rest|
    {
      assert rest[..0] == [];
      if rest == [] then Test(prefix)
      else if !Test(prefix) then false
      else
        ChainUnfold(prefix, rest);
        TestChain(prefix + "." + rest[0], rest[1..])
    }

    /** The joined prefixes of `prefix` and `rest` are `prefix` and the joined prefixes one level down. */
    lemma ChainUnfold(prefix: string, rest: seq<string>)
      requires rest != []
      ensures (forall k :: 0 <= k <= |rest| ==> Test(DotJoin(prefix, rest[..k]))) <==>
              Test(prefix) && forall k :: 0 <= k <= |rest| - 1 ==> Test(DotJoin(prefix + "." + rest[0], rest[1..][..k]))
    {
      assert rest[..0] == [];
      DotJoinStep(prefix, rest);
      if Test(prefix) && forall k :: 0 <= k <= |rest| - 1 ==> Test(DotJoin(prefix + "." + rest[0], rest[1..][..k])) {
        forall k | 0 <= k <= |rest|
          ensures Test(DotJoin(prefix, rest[..k]))
        {
          if k > 0 {
            assert Test(DotJoin(prefix + "." + rest[0], rest[1..][..k - 1]));
          }
        }
      }
    }
  }

  /** The keys along the way from `t` to the node at `pos`. */
  function KeysAt(t: Tree, pos: seq<nat>): (ks: seq<string>)
    requires ValidPos(t, pos)
    decreases |pos|
  {
    if pos == [] then [] else [t.children[pos[0]].key] + KeysAt(t.children[pos[0]].child, pos[1..])
  }

  /** Under a non-empty prefix the loader's path of a node is the evaluator's dot-joined key of its keys. */
  lemma {:induction false} PathAtIsDotJoin(prefix: string, t: Tree, pos: seq<nat>)
    requires ValidPos(t, pos) && pos != [] && prefix != ""
    ensures PathAt(prefix, t, pos) == DotJoin(prefix, KeysAt(t, pos))
    decreases |pos|
  {
    var e := t.children[pos[0]];
    var ks := KeysAt(t, pos);
    assert ks == [e.key] + KeysAt(e.child, pos[1..]);
    if |pos| == 1 {
      assert ks[..0] == [];
    } else {
      PathAtIsDotJoin(prefix + "." + e.key, e.child, pos[1..]);
      DotJoinShift(prefix, e.key, KeysAt(e.child, pos[1..]));
    }
  }

  /**
   Loader and evaluator agree on names: when the top-level key is not empty,
   the path under which a node is stored is the key the evaluator builds
   from the node's keys.
   */
  lemma NodePathIsGateKey(root: Tree, pos: seq<nat>)
    requires ValidPos(root, pos) && pos != [] && root.children[pos[0]].key != ""
    ensures var ks := KeysAt(root, pos); |ks| == |pos| && PathAt("", root, pos) == DotJoin(ks[0], ks[1..])
  {
    var e := root.children[pos[0]];
    KeysAtLength(root, pos);
    if |pos| > 1 {
      PathAtIsDotJoin(e.key, e.child, pos[1..]);
    }
  }

  lemma {:induction false} KeysAtLength(t: Tree, pos: seq<nat>)
    requires ValidPos(t, pos)
    ensures |KeysAt(t, pos)| == |pos|
    decreases |pos|
  {
    if pos != [] {
      KeysAtLength(t.children[pos[0]].child, pos[1..]);
    }
  }

  /** A disabled first segment disables the path without any deeper key mattering. */
  lemma FirstSegmentDisabled(l: Logger, prefix: string, rest: seq<string>)
    requires !l.Test(prefix)
    ensures !l.TestChain(prefix, rest)
  {
    assert rest[..0] == [];
  }

  /** Ancestor suppression: once a path is disabled, so is every path below it, whatever their own entries. */
  lemma DisabledPathSilencesDescendants(l: Logger, prefix: string, rest: seq<string>, ext: seq<string>)
    requires !l.TestChain(prefix, rest)
    ensures !l.TestChain(prefix, rest + ext)
  {
    var k :| 0 <= k <= |rest| && !l.Test(DotJoin(prefix, rest[..k]));
    assert (rest + ext)[..k] == rest[..k];
  }

  /** Default-allow: with no overrides at all every path is enabled. */
  lemma EmptyTableEnablesAll(l: Logger, prefix: string, rest: seq<string>)
    requires l.config == map[]
    ensures l.TestChain(prefix, rest)
  {
  }

  /**
   After a load, a single key is disabled exactly when the last node stored
   under its hash has a value that does not parse as true; a key under which
   no node was stored is enabled.
   */
  lemma LoadedKeyGate(l: Logger, root: Tree, key: string)
    requires l.config == Load(l.hash, root)
    ensures !l.Test(key) <==> exists pos :: LastWriteTo(l.hash, root, pos, l.hash(key)) && !ParseBool(NodeAt(root, pos).value)
  {
    var k := l.hash(key);
    if !l.Test(key) {
      LoadEntry(l.hash, root, k);
    }
    if exists pos :: LastWriteTo(l.hash, root, pos, k) && !ParseBool(NodeAt(root, pos).value) {
      var pos :| LastWriteTo(l.hash, root, pos, k) && !ParseBool(NodeAt(root, pos).value);
      LoadValue(l.hash, root, pos);
    }
  }

  /** A key whose hash no node path shares is enabled after a load. */
  lemma LoadedUnconfiguredKeyEnabled(l: Logger, root: Tree, key: string)
    requires l.config == Load(l.hash, root)
    requires forall pos :: ValidPos(root, pos) && pos != [] ==> l.hash(PathAt("", root, pos)) != l.hash(key)
    ensures l.Test(key)
  {
    LoadKeys(l.hash, root, l.hash(key));
  }

  /**
   End to end: a node configured to a false value, written last under its
   hash, disables the category path made of its keys and every path below it.
   */
  lemma DisabledNodeSilencesSubtree(l: Logger, root: Tree, pos: seq<nat>, ext: seq<string>)
    requires l.config == Load(l.hash, root)
    requires ValidPos(root, pos) && pos != [] && root.children[pos[0]].key != ""
    requires LastWriteTo(l.hash, root, pos, l.hash(PathAt("", root, pos)))
    requires !ParseBool(NodeAt(root, pos).value)
    ensures var ks := KeysAt(root, pos); |ks| == |pos| && !l.TestChain(ks[0], ks[1..] + ext)
  {
    var ks := KeysAt(root, pos);
    NodePathIsGateKey(root, pos);
    LoadValue(l.hash, root, pos);
    var rest := ks[1..];
    assert rest[..|rest|] == rest;
    assert !l.TestChain(ks[0], rest);
    DisabledPathSilencesDescendants(l, ks[0], rest, ext);
  }

  /** The tree `{"a": {"b": "false", "c": "true"}}`; node "a" carries the empty value. */
  const NestedSample: Tree := Tree("", [Entry("a", Tree("", [Entry("b", Tree("false", [])), Entry("c", Tree("true", []))]))])

  /** The tree `{"a": "false"}`. */
  const SuppressedSample: Tree := Tree("", [Entry("a", Tree("false", []))])

  /** The stores for `{"a": {"b": "false", "c": "true"}}`, in pre-order. */
  lemma NestedSampleWrites()
    ensures Flatten(NestedSample) == [Write("a", ""), Write("a.b", "false"), Write("a.c", "true")]
  {
    var a := NestedSample.children[0].child;
    assert JoinKey("a", "b") == "a.b" && JoinKey("a", "c") == "a.c";
    assert Writes("a", a, 1) == [Write("a.b", "false")];
    assert Writes("a", a, 2) == [Write("a.b", "false"), Write("a.c", "true")];
  }

  /** The table loaded from `{"a": {"b": "false", "c": "true"}}`: three stores, parent first. */
  lemma NestedSampleTable(hash: string -> u64)
    ensures Load(hash, NestedSample) == map[hash("a") := true][hash("a.b") := false][hash("a.c") := true]
  {
    var wa, wb, wc := Write("a", ""), Write("a.b", "false"), Write("a.c", "true");
    NestedSampleWrites();
    ApplySnoc(hash, map[], [], wa);
    ApplySnoc(hash, map[], [wa], wb);
    ApplySnoc(hash, map[], [wa, wb], wc);
    assert [wa] == [] + [wa] && [wa, wb] == [wa] + [wb] && [wa, wb, wc] == [wa, wb] + [wc];
    ParseBoolTruthySamples();
    ParseBoolFalsySamples();
  }

  /**
   Loading `{"a": {"b": "false", "c": "true"}}`: "a.b" is disabled, "a.c"
   enabled, and "a.b.d", which has no entry, is disabled through "a.b".
   */
  lemma NestedSampleGates(l: Logger)
    requires l.config == Load(l.hash, NestedSample)
    requires l.hash("a") != l.hash("a.b") && l.hash("a.b") != l.hash("a.c")
    ensures !l.TestChain("a", ["b"]) && l.TestChain("a", ["c"]) && !l.TestChain("a", ["b", "d"])
  {
    NestedSampleTable(l.hash);
    assert "a" + "." + "b" == "a.b" && "a" + "." + "c" == "a.c";
    assert ["b"][1..] == [] && ["c"][1..] == [] && ["b", "d"][1..] == ["d"];
    assert l.Test("a") && !l.Test("a.b") && l.Test("a.c");
    assert l.TestChain("a", ["b"]) == l.TestChain("a.b", []);
    assert l.TestChain("a", ["c"]) == l.TestChain("a.c", []);
    assert l.TestChain("a", ["b", "d"]) == l.TestChain("a.b", ["d"]);
  }

  /** Loading `{"a": "false"}` disables every path that starts with "a", at any depth, for any hash. */
  lemma SuppressedSampleGates(l: Logger, rest: seq<string>)
    requires l.config == Load(l.hash, SuppressedSample)
    ensures !l.TestChain("a", rest)
    ensures !l.TestChain("a", ["anything", "deep", "path"])
  {
    assert Flatten(SuppressedSample) == [Write("a", "false")];
    ParseBoolFalsySamples();
    FirstSegmentDisabled(l, "a", rest);
  }

  /** Loading a tree with no children leaves the table empty, so every path is enabled. */
  lemma EmptyTreeEnablesAll(l: Logger, value: string, prefix: string, rest: seq<string>)
    requires l.config == Load(l.hash, Tree(value, []))
    ensures l.config == map[] && l.TestChain(prefix, rest)
  {
  }

  /**
   Lookup is by hash only: when "y" collides with the configured "x", the
   override for "x" also disables "y", which was never configured.
   */
  lemma CollisionSharesOverride(l: Logger)
    requires l.config == Load(l.hash, Tree("", [Entry("x", Tree("off", []))]))
    requires l.hash("y") == l.hash("x")
    ensures !l.TestChain("y", [])
  {
    assert Flatten(Tree("", [Entry("x", Tree("off", []))])) == [Write("x", "off")];
    assert !ParseBool("off");
  }

  /** The table loaded from `{"": {"x": "0"}}`: the child is stored under "x", not ".x". */
  lemma EmptyTopKeyTable(hash: string -> u64)
    ensures Load(hash, Tree("", [Entry("", Tree("", [Entry("x", Tree("0", []))]))])) == map[hash("") := true][hash("x") := false]
  {
    var t := Tree("", [Entry("", Tree("", [Entry("x", Tree("0", []))]))]);
    var we, wx := Write("", ""), Write("x", "0");
    assert Writes("", t.children[0].child, 1) == [wx];
    assert Flatten(t) == [we, wx];
    ApplySnoc(hash, map[], [], we);
    ApplySnoc(hash, map[], [we], wx);
    assert [we] == [] + [we] && [we, wx] == [we] + [wx];
    ParseBoolTruthySamples();
    ParseBoolFalsySamples();
  }

  /**
   Under an empty top-level key the loader adds no dot, so `{"": {"x": "0"}}`
   stores "x", while the evaluator's key for the segments "" and "x" is ".x":
   that path stays enabled unless ".x" happens to share the hash of "" or "x".
   */
  lemma EmptyTopKeyIsNotJoined(l: Logger)
    requires l.config == Load(l.hash, Tree("", [Entry("", Tree("", [Entry("x", Tree("0", []))]))]))
    requires l.hash(".x") != l.hash("") && l.hash(".x") != l.hash("x") && l.hash("") != l.hash("x")
    ensures !l.Test("x") && l.TestChain("", ["x"])
  {
    EmptyTopKeyTable(l.hash);
    EmptyTopKeyGates(l);
  }

  /** The gates of the table `EmptyTopKeyTable` describes: "x" is disabled, the joined ".x" is not. */
  lemma EmptyTopKeyGates(l: Logger)
    requires l.config == map[l.hash("") := true][l.hash("x") := false]
    requires l.hash(".x") != l.hash("") && l.hash(".x") != l.hash("x") && l.hash("") != l.hash("x")
    ensures !l.Test("x") && l.TestChain("", ["x"])
  {
    assert "" + "." + "x" == ".x" && ["x"][1..] == [];
    assert l.TestChain("", ["x"]) == (l.Test("") && l.TestChain(".x", []));
  }
}
