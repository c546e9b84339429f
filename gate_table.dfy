/**
 The gate table: the logger's map from the 64-bit hash of a dot-joined
 category path to the boolean stored for it, and the effect of a sequence
 of writes on such a map.
 */
module GateTable {
  import opened Text

  /** An unsigned 64-bit value, the result type of the path hash. */
  newtype u64 = x: int | 0 <= x < 0x1_0000_0000_0000_0000

  /** The logger's `_config`: hash of a path to the bool stored for it. */
  type Table = map<u64, bool>

  /** One store performed while loading: `table[hash(path)] := ParseBool(value)`. */
  datatype Write = Write(path: string, value: string)

  /** The keys that the writes `ws` touch under `hash`. */
  function WrittenKeys(hash: string -> u64, ws: seq<Write>): (ks: set<u64>)
  {
    set w | w in ws :: hash(w.path)
  }

  /** The table after performing the writes `ws`, in order, on `m`. */
  function Apply(hash: string -> u64, m: Table, ws: seq<Write>): (r: Table)
    decreases |ws|
  {
    if ws == [] then m
    else
      var last := ws[|ws| - 1];
      Apply(hash, m, ws[..|ws| - 1])[hash(last.path) := ParseBool(last.value)]
  }

  /** Keys are only ever added: the result has the keys of `m` and every key some write touched. */
  lemma {:induction false} ApplyKeys(hash: string -> u64, m: Table, ws: seq<Write>)
    ensures Apply(hash, m, ws).Keys == m.Keys + WrittenKeys(hash, ws)
    decreases |ws|
  {
    if ws != [] {
      ApplyKeys(hash, m, ws[..|ws| - 1]);
      WrittenKeysSnoc(hash, ws);
    }
  }

  /** The keys of all writes are those of all but the last, and the last one's. */
  lemma WrittenKeysSnoc(hash: string -> u64, ws: seq<Write>)
    requires ws != []
    ensures WrittenKeys(hash, ws) == WrittenKeys(hash, ws[..|ws| - 1]) + {hash(ws[|ws| - 1].path)}
  {
    assert ws == ws[..|ws| - 1] + [ws[|ws| - 1]];
  }

  /** Performing `a` and then `b` is performing `a + b`. */
  lemma {:induction false} ApplyConcat(hash: string -> u64, m: Table, a: seq<Write>, b: seq<Write>)
    ensures Apply(hash, m, a + b) == Apply(hash, Apply(hash, m, a), b)
    decreases |b|
  {
    if b != [] {
      var init, last := b[..|b| - 1], b[|b| - 1];
      SnocSplit(a, b);
      ApplySnoc(hash, m, a + init, last);
      ApplyConcat(hash, m, a, init);
      ApplySnoc(hash, Apply(hash, m, a), init, last);
    } else {
      assert a + b == a;
    }
  }

  /** Splitting off the last element of `b`, in `b` alone and in `a + b`. */
  lemma SnocSplit<T>(a: seq<T>, b: seq<T>)
    requires b != []
    ensures b == b[..|b| - 1] + [b[|b| - 1]]
    ensures a + b == (a + b[..|b| - 1]) + [b[|b| - 1]]
  {
  }

  /** Appending one write stores its value under its path's hash. */
  lemma ApplySnoc(hash: string -> u64, m: Table, ws: seq<Write>, w: Write)
    ensures Apply(hash, m, ws + [w]) == Apply(hash, m, ws)[hash(w.path) := ParseBool(w.value)]
  {
    assert (ws + [w])[..|ws|] == ws;
  }

  /** The last write to a key decides its value, whatever came before it. */
  lemma {:induction false} ApplyLastWins(hash: string -> u64, m: Table, ws: seq<Write>, i: nat)
    requires i < |ws|
    requires forall j :: i < j < |ws| ==> hash(ws[j].path) != hash(ws[i].path)
    ensures hash(ws[i].path) in Apply(hash, m, ws)
    ensures Apply(hash, m, ws)[hash(ws[i].path)] == ParseBool(ws[i].value)
    decreases |ws|
  {
    if i < |ws| - 1 {
      var init := ws[..|ws| - 1];
      assert init[i] == ws[i];
      ApplyLastWins(hash, m, init, i);
    }
  }

  /** A key no write touches keeps its value from `m`. */
  lemma {:induction false} ApplyUntouched(hash: string -> u64, m: Table, ws: seq<Write>, k: u64)
    requires k !in WrittenKeys(hash, ws)
    requires k in m
    ensures k in Apply(hash, m, ws) && Apply(hash, m, ws)[k] == m[k]
    decreases |ws|
  {
    if ws != [] {
      var init := ws[..|ws| - 1];
      assert WrittenKeys(hash, init) <= WrittenKeys(hash, ws);
      assert ws[|ws| - 1] in ws;
      ApplyUntouched(hash, m, init, k);
    }
  }

  /** The index of the last write in `ws` that touches key `k`. */
  function LastWriteIndex(hash: string -> u64, ws: seq<Write>, k: u64): (i: nat)
    requires k in WrittenKeys(hash, ws)
    ensures i < |ws| && hash(ws[i].path) == k
    ensures forall j :: i < j < |ws| ==> hash(ws[j].path) != k
    decreases |ws|
  {
    var init := ws[..|ws| - 1];
    if hash(ws[|ws| - 1].path) == k then |ws| - 1
    else
      assert forall w :: w in ws && w != ws[|ws| - 1] ==> w in init;
      LastWriteIndex(hash, init, k)
  }
}
