# Node logger gate — a Dafny model

This project models the log gate of the node logger (`src/logger.cpp`). The
gate decides, for a category path such as `connector.session.new`, whether an
event of that category is logged. It has three parts:

- **Configure.** The `configure` handler clears the logger's override table
  `_config`. It then walks the configuration tree depth-first, parent before
  children, and stores each node's parsed value under the hash of the node's
  dot-joined path. The root's own value is not stored.
- **Parse.** `parseBool` turns a value into a boolean. A value is `true`
  exactly when it is, in any letter case, one of `t`, `true`, `on`,
  `enable`, `allow`, `1` or the empty string. Every other value is `false`,
  and there is no error case.
- **Test.** `test(key)` takes the stored override for the key's hash and
  defaults to `true` when there is none. `test(prefix, head, tail...)` checks
  `prefix` first and stops at the first disabled level. Otherwise it
  continues with `prefix + "." + head` and the remaining segments. So a path
  is enabled exactly when none of its joined prefixes is disabled.

The model also covers `addr2String`, which formats an acceptor's pair of
addresses.

Files and modules:

- `text.dfy`, module `Text`: `ParseBool` and the case folding it uses;
  `Address` and `AddrToString`.
- `gate_table.dfy`, module `GateTable`: the 64-bit key type `u64`; the table
  type (`map<u64, bool>`); a store `Write`; and `Apply`, the effect of a
  sequence of stores on a table.
- `config_tree.dfy`, module `ConfigTree`: the tree (`Tree`, `Entry`: an
  ordered list of key/child pairs, where keys may repeat). It also holds the
  stores one traversal performs (`Writes`, `Flatten`), the resulting table
  (`Load`), and a second description of every non-root node by its
  *position*, meaning the list of child indices from the root (`ValidPos`,
  `NodeAt`, `PathAt`, `IndexOf`).
- `logger.dfy`, module `Logging`: the class `Logger`, which holds the
  table `config` and the hash, with the method `Configure` and its recursion
  `Traverse`, and the functions `Test` and `TestChain`. It also holds the
  lemmas that tie loading to gating, and the sample configurations.

The hash `utils::fnv1a` is not part of this model. Its source is not
available, so `Logger.hash` may be any deterministic function from strings
to 64-bit values. Every lemma holds for every such function, and each one
states the hash distinctness it relies on. `CollisionSharesOverride` shows
the consequence of looking up by hash alone: a path that collides with a
configured one shares its override.

The variadic `test(prefix, head, tail...)` is `TestChain(prefix, rest)`,
with `rest = [head] + tail`. `TestChain(key, [])` is `test(key)`. The source
builds the next key with a fixed-size `char` buffer sized by `sizeof`: it
copies `prefix` without its terminator, then `'.'`, then `head` with its
terminator. That produces exactly `prefix + "." + head`, and the model writes
it as that concatenation.

A difference between the loader's and the evaluator's path building, as the
code is written: the loader joins a key to an empty prefix without a dot
(`src/logger.cpp:351`), but the evaluator always inserts one. For a top-level
key that is itself empty, the two therefore build different strings for
the nodes below it: the loader stores `x` where the evaluator looks up `.x`
(`EmptyTopKeyIsNotJoined`). The empty top-level node itself is stored and
looked up as `""` by both. Under a non-empty top-level key, every node's
path in the loader is the evaluator's key (`NodePathIsGateKey`).

## Model

| member | source | states |
|---|---|---|
| `Text.ParseBool` | src/logger.cpp:59-63 | no contract of its own: true when the whole value equals one of the pattern's seven alternatives ignoring case; `ParseBoolMeaning` states what that means |
| `Text.ParseBoolMeaning` | src/logger.cpp:59-63 | the whole-string, case-insensitive match against the alternatives of the anchored pattern is true exactly when the lower-cased value is one of the seven truthy tokens; every other string is false, with no error result |
| `Text.EqualsIgnoreCaseIffLower` | src/logger.cpp:61 | matching a lower-case literal with `icase` holds exactly when the lower-cased input equals the literal |
| `Text.ParseBoolTruthySamples` | src/logger.cpp:59-63 | `""`, `t`, `true` and `1` parse as true |
| `Text.ParseBoolMixedCaseSamples` | src/logger.cpp:59-63 | `T`, `ON`, `Enable`, `ALLOW` parse as true, because the match ignores case |
| `Text.ParseBoolFalsySamples` | src/logger.cpp:59-63 | `false`, `no`, `0`, `xyz` parse as false |
| `Text.ParseBoolNearMissSamples` | src/logger.cpp:59-63 | the match is anchored: `" true"`, `tru`, `11` parse as false |
| `Text.AddrToString` | src/logger.cpp:43-56 | the first address is always a prefix of the result; the result is empty iff both are; one empty address gives the other; when both are present the result is the first alone iff they are equal, and otherwise the first followed by ` (` second `)` |
| `Text.AddrToStringShowsBoth` | src/logger.cpp:43-56 | both addresses can be read back from the result: the first as its prefix, the second at some offset inside it |
| `GateTable.Apply` | src/logger.cpp:352 | no contract of its own: the stores `_config[hash(path)] = parseBool(value)` performed in order; `ApplyKeys`, `ApplySnoc`, `ApplyLastWins` and `ApplyUntouched` state their effect |
| `GateTable.ApplyKeys` | src/logger.cpp:352 | storing never removes a key: the table's keys afterwards are the old keys plus every hash that some store wrote |
| `GateTable.ApplySnoc` | src/logger.cpp:352 | one more store sets the entry for its path's hash to the parsed value |
| `GateTable.ApplyConcat` | src/logger.cpp:349-354 | performing two runs of stores one after the other is performing their concatenation |
| `GateTable.ApplyLastWins` | src/logger.cpp:352 | the last store to a hash decides its entry, whatever earlier stores wrote |
| `GateTable.ApplyUntouched` | src/logger.cpp:352 | an entry that no store touches keeps its previous value |
| `GateTable.LastWriteIndex` | src/logger.cpp:349-354 | every hash that some store touched has a last store to it |
| `ConfigTree.JoinKey` | src/logger.cpp:351 | no contract of its own: the key alone under an empty prefix, otherwise prefix, `.`, key; `PathOfChild` relates it to the tree |
| `ConfigTree.Writes` | src/logger.cpp:347-355 | no contract of its own: the stores of the loop over the children and the recursion into each; `WritesLength`, `WriteAt`, `PositionOf` and `ParentWrittenFirst` state which stores these are and in what order |
| `ConfigTree.Flatten` | src/logger.cpp:356 | no contract of its own: the stores of `traverse({}, tree)`, started with the empty prefix at the root |
| `ConfigTree.Load` | src/logger.cpp:346-356 | no contract of its own: those stores performed on the cleared table; `LoadKeys`, `LoadValue` and `LoadEntry` state the resulting table |
| `ConfigTree.WritesLength` | src/logger.cpp:349-354 | the traversal performs one store per node below the root |
| `ConfigTree.CountMono` | src/logger.cpp:349 | covering more of a node's children never covers fewer nodes |
| `ConfigTree.ChildCountSmaller` | src/logger.cpp:353 | a child's subtree has fewer nodes than its parent's, so the recursion ends |
| `ConfigTree.WritesExtend` | src/logger.cpp:349-354 | one more loop round only appends stores: the stores so far are a prefix of those after the next child |
| `ConfigTree.WritesPrefix` | src/logger.cpp:349 | the stores for the first m children are a prefix of those for the first n children, when m <= n |
| `ConfigTree.ChildWrite` | src/logger.cpp:351-352 | child j is stored, under its joined path and with its own value, right after the subtrees of the children before it |
| `ConfigTree.BelowChildWrite` | src/logger.cpp:353 | the stores of child j's subtree come immediately after child j's own store |
| `ConfigTree.WriteAt` | src/logger.cpp:347-356 | every node below the root, leaf or interior, is stored under its own path with its own value, at its pre-order index |
| `ConfigTree.PositionOf` | src/logger.cpp:347-356 | every store of the traversal is the store of some node: no store is extra |
| `ConfigTree.ParentWrittenFirst` | src/logger.cpp:352-353 | pre-order: each node is stored before every node below it |
| `ConfigTree.PathOfChild` | src/logger.cpp:351 | a child's path is its key joined to its parent's path, with no dot when the parent's path is empty |
| `ConfigTree.WritesStep` | src/logger.cpp:349-354 | one loop round (store child i, then traverse it) extends the stores done so far by those of children 0..i |
| `ConfigTree.LoadKeys` | src/logger.cpp:346-356 | after loading, the table's keys are exactly the hashes of the paths of the nodes below the root; nothing else remains, and the root is not stored |
| `ConfigTree.LoadValue` | src/logger.cpp:349-354 | a node's parsed value is the entry for its path's hash, unless a node stored later has a path with the same hash |
| `ConfigTree.LoadEntry` | src/logger.cpp:349-354 | every entry of a loaded table holds the parsed value of the last node stored under that hash |
| `Logging.DotJoin` | src/logger.cpp:388-394 | no contract of its own: the key built as prefix, then `.` and a segment for each segment in turn; `DotJoinShift` and `DotJoinStep` relate it to the buffer built one level at a time |
| `Logging.Logger.Test` | src/logger.cpp:369-378 | no contract of its own: the stored entry for the key's hash, or true when there is none; `LoadedKeyGate` and `LoadedUnconfiguredKeyEnabled` state what it gives after a load |
| `Logging.Logger.constructor` | src/logger.hpp:27 | a new logger has an empty table |
| `Logging.Logger.Configure` | src/logger.cpp:344-359 | the table becomes exactly the table loaded from the tree; it depends on the tree alone, so the old contents do not survive and loading the same tree twice gives the same table |
| `Logging.Logger.Traverse` | src/logger.cpp:347-355 | the recursion performs, on the current table, exactly the pre-order stores of the node's children and their subtrees |
| `Logging.Logger.TestChain` | src/logger.cpp:369-395 | a path is enabled iff `test` holds for every joined prefix of it (`s1`, `s1.s2`, ..., the whole path); each `test` is the stored entry, or true when the hash is absent |
| `Logging.Logger.ChainUnfold` | src/logger.cpp:383-394 | the joined prefixes of a path are its first segment, then the joined prefixes one level down, rooted at `prefix + "." + head` |
| `Logging.DotJoinShift` | src/logger.cpp:388-394 | building `prefix + "." + head` and joining the tail onto it gives the same key as joining head and tail onto `prefix` |
| `Logging.DotJoinStep` | src/logger.cpp:388-394 | the keys tested one level down are the keys of this level after the first |
| `Logging.PathAtIsDotJoin` | src/logger.cpp:351 | under a non-empty prefix, a node's stored path is the dot-join of the keys leading to it |
| `Logging.NodePathIsGateKey` | src/logger.cpp:351-353 | when the top-level key is non-empty, the path a node is stored under is the key the evaluator builds from the node's keys |
| `Logging.FirstSegmentDisabled` | src/logger.cpp:383-386 | a disabled first segment makes the answer false, whatever the deeper entries say |
| `Logging.DisabledPathSilencesDescendants` | src/logger.cpp:381-395 | a disabled path disables every path that extends it; a descendant entry cannot re-enable it |
| `Logging.EmptyTableEnablesAll` | src/logger.cpp:371-375 | with an empty table every path is enabled |
| `Logging.LoadedKeyGate` | src/logger.cpp:369-378 | after loading, a key is disabled iff the last node stored under its hash has a value that parses as false |
| `Logging.LoadedUnconfiguredKeyEnabled` | src/logger.cpp:371-375 | after loading, a key whose hash is shared by no node's path is enabled |
| `Logging.DisabledNodeSilencesSubtree` | src/logger.cpp:344-395 | a node configured false, and stored last under its hash, disables the category path made of its keys and every path below it |
| `Logging.NestedSampleWrites` | src/logger.cpp:347-356 | `{"a": {"b": "false", "c": "true"}}` is stored as `a`, `a.b`, `a.c`, in that order |
| `Logging.NestedSampleTable` | src/logger.cpp:346-356 | loading that tree gives `a := true` (its empty value), `a.b := false`, `a.c := true` |
| `Logging.NestedSampleGates` | src/logger.cpp:381-395 | with that table, `["a","b"]` is false, `["a","c"]` is true, and `["a","b","d"]` is false even though `a.b.d` has no entry |
| `Logging.SuppressedSampleGates` | src/logger.cpp:383-386 | after loading `{"a": "false"}`, every path starting with `a` is false, `["a","anything","deep","path"]` included |
| `Logging.EmptyTreeEnablesAll` | src/logger.cpp:346-356 | loading a tree without children leaves the table empty, and every path is enabled |
| `Logging.CollisionSharesOverride` | src/logger.cpp:371 | lookup is by hash only: an unconfigured key whose hash equals a configured key's takes that override |
| `Logging.EmptyTopKeyTable` | src/logger.cpp:351 | `{"": {"x": "0"}}` stores its inner node under `x`, not `.x` |
| `Logging.EmptyTopKeyGates` | src/logger.cpp:369-395 | with the table `"" := true`, `x := false`, `test("x")` is false and `test("", "x")` is true, the hashes of `""`, `x` and `.x` being distinct |
| `Logging.EmptyTopKeyIsNotJoined` | src/logger.cpp:351-394 | for that tree `test("x")` is false, while `test("", "x")` looks up `""` and `.x` and stays true |

## Left out

- The event subscriptions in the constructor (`src/logger.cpp:72-341`), the `LOGI`/`LOGW` output, the futures and their `then()` continuations are left out. They connect the gate to a host framework whose interfaces are not part of this model. Only the gate they consult is modelled.
- The stream operators, `b2h` and `exception::toString` (`src/logger.cpp:15-35`) are left out. They are output formatting and calls into other libraries.
- The per-callback `cidGen` session counters (`src/logger.cpp:232-233`, `293-294`) are left out. They only number log lines.
- `config::cnvt` and `cmt::readyFuture` (`src/logger.cpp:356`, `358`) are left out. The model starts from the already converted tree (`Tree`) and returns nothing.
- `utils::fnv1a` is left out: it is a parameter (`Logger.hash`), not a defined function, so the model proves nothing about how well it spreads keys.
- Two facts about types defined outside `src/logger.cpp` are assumed. (a) `transport::Address` is not defined in the source, and the model treats it as its textual value alone (`Text.Address`). So `a1 == a2` (`src/logger.cpp:47`) is modelled as equality of the printed values, the only field `operator<<` shows (`src/logger.cpp:23`). Any other field the real type compares is not captured. (b) The loader hashes a `String` (`src/logger.cpp:352`), while the evaluator hashes `char` arrays (`src/logger.cpp:371`, `388-394`). One `Logger.hash` serves both, which assumes that `utils::fnv1a` hashes an array's characters and not its terminating NUL.
- The `std::regex` engine is left out. The pattern has a fixed set of alternatives, and the model matches each alternative case-insensitively. Case folding covers ASCII letters only, as in the default C locale. Strings are sequences of characters, not bytes.
- The model is single-threaded. `configure` clears and refills the table in place, and the model does the same. The copy-and-swap publication and the snapshot isolation for concurrent readers are not modelled, because the code has neither.
- The evaluator has no zero-segment form: every call site passes at least one segment, and `TestChain` always has a first key. So the model says nothing about an "empty path is enabled" rule, which the code does not have.
- `Logging.Logger.Test` (`test(key)`, `src/logger.cpp:369-378`) has no contract of its own, because it is the plain lookup. What it means after a load is stated by `LoadedKeyGate` and `LoadedUnconfiguredKeyEnabled`.
- `src/logger.cpp`'s destructor (`sol().flush()`) is left out. It is lifecycle glue.
