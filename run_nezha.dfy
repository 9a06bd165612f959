/**
 The weight-name translation table of the NEZHA example
 (`variable_mapping` in examples/tensorflow/run_nezha.py).

 It maps the names of the Keras layer weights of a NEZHA/BERT model
 (`bert-layer-3/feedforward/input/kernel`) to the variable names of the
 official BERT checkpoint (`bert/encoder/layer_3/intermediate/dense/kernel`):
 sixteen fixed entries for the embeddings and the output heads, then sixteen
 entries for each encoder layer `0 .. num_hidden_layers - 1`.
 */
module RunNezha {
  import Decimal
  import opened Dicts

  /** The entries of the initial dictionary literal, in source order. */
  const FixedPairs: seq<(string, string)> := [
    ("embedding-token/embeddings", "bert/embeddings/word_embeddings"),
    ("embedding-segment/embeddings", "bert/embeddings/token_type_embeddings"),
    ("embedding-position/embeddings", "bert/embeddings/position_embeddings"),
    ("embedding-norm/gamma", "bert/embeddings/LayerNorm/gamma"),
    ("embedding-norm/beta", "bert/embeddings/LayerNorm/beta"),
    ("embedding-mapping/kernel", "bert/encoder/embedding_hidden_mapping_in/kernel"),
    ("embedding-mapping/bias", "bert/encoder/embedding_hidden_mapping_in/bias"),
    ("bert-output/pooler-dense/kernel", "bert/pooler/dense/kernel"),
    ("bert-output/pooler-dense/bias", "bert/pooler/dense/bias"),
    ("bert-output/nsp-prob/kernel", "cls/seq_relationship/output_weights"),
    ("bert-output/nsp-prob/bias", "cls/seq_relationship/output_bias"),
    ("bert-output/mlm-dense/kernel", "cls/predictions/transform/dense/kernel"),
    ("bert-output/mlm-dense/bias", "cls/predictions/transform/dense/bias"),
    ("bert-output/mlm-norm/gamma", "cls/predictions/transform/LayerNorm/gamma"),
    ("bert-output/mlm-norm/beta", "cls/predictions/transform/LayerNorm/beta"),
    ("bert-output/mlm-bias/bias", "cls/predictions/output_bias")
  ]

  /** What follows `bert-layer-{i}/` in a layer key, and what follows
      `bert/encoder/layer_{i}/` in its checkpoint name, in source order. */
  const LayerLeaves: seq<(string, string)> := [
    ("multi-head-self-attention/query/kernel", "attention/self/query/kernel"),
    ("multi-head-self-attention/query/bias", "attention/self/query/bias"),
    ("multi-head-self-attention/key/kernel", "attention/self/key/kernel"),
    ("multi-head-self-attention/key/bias", "attention/self/key/bias"),
    ("multi-head-self-attention/value/kernel", "attention/self/value/kernel"),
    ("multi-head-self-attention/value/bias", "attention/self/value/bias"),
    ("multi-head-self-attention/output/kernel", "attention/output/dense/kernel"),
    ("multi-head-self-attention/output/bias", "attention/output/dense/bias"),
    ("multi-head-self-attention-norm/gamma", "attention/output/LayerNorm/gamma"),
    ("multi-head-self-attention-norm/beta", "attention/output/LayerNorm/beta"),
    ("feedforward/input/kernel", "intermediate/dense/kernel"),
    ("feedforward/input/bias", "intermediate/dense/bias"),
    ("feedforward/output/kernel", "output/dense/kernel"),
    ("feedforward/output/bias", "output/dense/bias"),
    ("feedforward-norm/gamma", "output/LayerNorm/gamma"),
    ("feedforward-norm/beta", "output/LayerNorm/beta")
  ]

  const LayerKeyHead: string := "bert-layer-"
  const LayerTargetHead: string := "bert/encoder/layer_"

  predicate StartsWith(s: string, p: string) {
    |p| <= |s| && s[..|p|] == p
  }

  /** `head + str(i) + "/" + leaf`: the shape of every per-layer key and name. */
  function Tagged(head: string, i: nat, leaf: string): string {
    head + Decimal.Format(i) + "/" + leaf
  }

  // ---------------------------------------------------------------------
  // The table built from a fixed literal and a per-layer template.
  // `variable_mapping` uses `FixedPairs` and `LayerLeaves`; the facts proved
  // below hold for any pair of tables meeting `Unambiguous`.

  /** The Keras name of weight `j` of encoder layer `i`. */
  function LayerKey(leaves: seq<(string, string)>, i: nat, j: nat): string
    requires j < |leaves|
  {
    Tagged(LayerKeyHead, i, leaves[j].0)
  }

  /** The checkpoint name of weight `j` of encoder layer `i`. */
  function LayerTarget(leaves: seq<(string, string)>, i: nat, j: nat): string
    requires j < |leaves|
  {
    Tagged(LayerTargetHead, i, leaves[j].1)
  }

  /** The entries of the dictionary literal passed to `update` for layer `i`. */
  function LayerPairs(leaves: seq<(string, string)>, i: nat): seq<(string, string)> {
    seq(|leaves|, j requires 0 <= j < |leaves| => (LayerKey(leaves, i, j), LayerTarget(leaves, i, j)))
  }

  function LayerMapping(leaves: seq<(string, string)>, i: nat): map<string, string> {
    MapOf(LayerPairs(leaves, i))
  }

  /** The initial literal, then one `update` per layer in `range(numLayers)`. */
  function Translation(fixed: seq<(string, string)>, leaves: seq<(string, string)>, numLayers: int): map<string, string>
    decreases numLayers
  {
    if numLayers <= 0 then MapOf(fixed)
    else Translation(fixed, leaves, numLayers - 1) + LayerMapping(leaves, numLayers - 1)
  }

  /** The table `variable_mapping(numLayers)` returns. */
  function MappingOf(numLayers: int): map<string, string> {
    Translation(FixedPairs, LayerLeaves, numLayers)
  }

  /** `key` is the Keras name of some weight of a layer in `range(numLayers)`. */
  ghost predicate IsLayerKeyBelow(leaves: seq<(string, string)>, key: string, numLayers: int) {
    exists i: nat, j: nat :: i < numLayers && j < |leaves| && key == LayerKey(leaves, i, j)
  }

  /** What the tables must satisfy for the translation to be one-to-one: no key
      or name written twice, and no fixed key or name that looks like a layer's. */
  ghost predicate Unambiguous(fixed: seq<(string, string)>, leaves: seq<(string, string)>) {
    && DistinctKeys(fixed) && DistinctValues(fixed)
    && DistinctKeys(leaves) && DistinctValues(leaves)
    && (forall j :: 0 <= j < |fixed| ==> !StartsWith(fixed[j].0, LayerKeyHead))
    && (forall j :: 0 <= j < |fixed| ==> !StartsWith(fixed[j].1, LayerTargetHead))
  }

  /** Builds the table as the source does: a literal, then one `update` per
      layer. The result has `16 + 16 * num_hidden_layers` keys (just the
      sixteen fixed ones when the count is not positive) and never sends two
      Keras names to the same checkpoint name. */
  method VariableMapping(numHiddenLayers: int) returns (mapping: map<string, string>)
    ensures mapping == MappingOf(numHiddenLayers)
    ensures |mapping| == 16 + 16 * (if numHiddenLayers < 0 then 0 else numHiddenLayers)
    ensures Injective(mapping)
  {
    mapping := MapOf(FixedPairs);
    var i := 0;
    while i < numHiddenLayers
      invariant 0 <= i && (i <= numHiddenLayers || i == 0)
      invariant mapping == Translation(FixedPairs, LayerLeaves, i)
    {
      mapping := mapping + MapOf(LayerPairs(LayerLeaves, i));
      i := i + 1;
    }
    SourceMappingShape(numHiddenLayers);
  }

  // ---------------------------------------------------------------------
  // Facts about the two literal tables of the source

  /** Entry `b` of the initial literal repeats neither the key nor the name of an earlier entry. */
  lemma FixedEntryFresh(b: nat)
    requires b < |FixedPairs|
    ensures forall a :: 0 <= a < b ==> FixedPairs[a].0 != FixedPairs[b].0 && FixedPairs[a].1 != FixedPairs[b].1
  {
  }

  lemma FixedTableDistinct()
    ensures |FixedPairs| == 16 && DistinctKeys(FixedPairs) && DistinctValues(FixedPairs)
  {
    forall a, b | 0 <= a < b < |FixedPairs|
      ensures FixedPairs[a].0 != FixedPairs[b].0 && FixedPairs[a].1 != FixedPairs[b].1
    {
      FixedEntryFresh(b);
    }
  }

  /** Leaf `b` of the layer table repeats neither the key leaf nor the name leaf of an earlier one. */
  lemma LeafFresh(b: nat)
    requires b < |LayerLeaves|
    ensures forall a :: 0 <= a < b ==> LayerLeaves[a].0 != LayerLeaves[b].0 && LayerLeaves[a].1 != LayerLeaves[b].1
  {
  }

  lemma LeafTableDistinct()
    ensures |LayerLeaves| == 16 && DistinctKeys(LayerLeaves) && DistinctValues(LayerLeaves)
  {
    forall a, b | 0 <= a < b < |LayerLeaves|
      ensures LayerLeaves[a].0 != LayerLeaves[b].0 && LayerLeaves[a].1 != LayerLeaves[b].1
    {
      LeafFresh(b);
    }
  }

  /** No fixed key starts like a layer key (`embedding-` and `bert-output/`
      differ from `bert-layer-` in the first or the sixth character). */
  lemma FixedKeysNotLayered()
    ensures forall j :: 0 <= j < |FixedPairs| ==> !StartsWith(FixedPairs[j].0, LayerKeyHead)
  {
    forall j | 0 <= j < |FixedPairs| ensures !StartsWith(FixedPairs[j].0, LayerKeyHead) {
      var s := FixedPairs[j].0;
      assert s[0] != LayerKeyHead[0] || s[5] != LayerKeyHead[5];
    }
  }

  /** No fixed checkpoint name starts like a layer name: `cls/`, `bert/embeddings/`,
      `bert/pooler/` and `bert/encoder/embedding_hidden_mapping_in/` all leave
      `bert/encoder/layer_` within its first fourteen characters. */
  lemma FixedNamesNotLayered()
    ensures forall j :: 0 <= j < |FixedPairs| ==> !StartsWith(FixedPairs[j].1, LayerTargetHead)
  {
    forall j | 0 <= j < |FixedPairs| ensures !StartsWith(FixedPairs[j].1, LayerTargetHead) {
      var s := FixedPairs[j].1;
      assert s[0] != LayerTargetHead[0] || s[6] != LayerTargetHead[6] || s[13] != LayerTargetHead[13];
    }
  }

  /** The source's two tables have sixteen entries each and are unambiguous. */
  lemma SourceTables()
    ensures |FixedPairs| == 16 && |LayerLeaves| == 16
    ensures Unambiguous(FixedPairs, LayerLeaves)
  {
    FixedTableDistinct();
    LeafTableDistinct();
    FixedKeysNotLayered();
    FixedNamesNotLayered();
  }

  /** With the source's tables: `16 + 16 * n` keys for `n >= 0` layers (sixteen
      when `n <= 0`), and distinct keys bound to distinct names. */
  lemma SourceMappingShape(numLayers: int)
    ensures |MappingOf(numLayers)| == 16 + 16 * (if numLayers < 0 then 0 else numLayers)
    ensures Injective(MappingOf(numLayers))
  {
    SourceTables();
    if numLayers <= 0 {
      NoLayers(FixedPairs, LayerLeaves, numLayers);
    } else {
      MappingSize(FixedPairs, LayerLeaves, numLayers);
    }
    MappingInjective(FixedPairs, LayerLeaves, numLayers);
  }

  // ---------------------------------------------------------------------
  // Tagged names

  lemma TaggedStartsWith(head: string, i: nat, leaf: string)
    ensures StartsWith(Tagged(head, i, leaf), head)
  {
    assert Tagged(head, i, leaf)[..|head|] == head;
  }

  /** The `/` after the digits fixes where the index ends, so a tagged name
      determines both its index and its leaf. */
  lemma TaggedUnique(head: string, i: nat, a: string, i': nat, b: string)
    requires Tagged(head, i, a) == Tagged(head, i', b)
    ensures i == i' && a == b
  {
    var s := Tagged(head, i, a);
    var d, d' := Decimal.Format(i), Decimal.Format(i');
    var h := |head|;
    assert forall k :: 0 <= k < |d| ==> s[h + k] == d[k];
    assert forall k :: 0 <= k < |d'| ==> s[h + k] == d'[k];
    assert s[h + |d|] == '/';
    assert s[h + |d'|] == '/';
    assert |d| == |d'|;
    assert d == s[h..h + |d|] == d';
    Decimal.FormatInjective(i, i');
    assert a == s[h + |d| + 1..] == b;
  }

  // ---------------------------------------------------------------------
  // One layer's literal

  /** Within one layer's literal, distinct weights have distinct keys. */
  lemma LayerPairsDistinct(leaves: seq<(string, string)>, i: nat)
    requires DistinctKeys(leaves)
    ensures DistinctKeys(LayerPairs(leaves, i))
  {
    var ps := LayerPairs(leaves, i);
    forall a, b | 0 <= a < b < |ps| ensures ps[a].0 != ps[b].0 {
      if ps[a].0 == ps[b].0 {
        TaggedUnique(LayerKeyHead, i, leaves[a].0, i, leaves[b].0);
      }
    }
  }

  /** The literal of layer `i` has one key per leaf. */
  lemma LayerMappingSize(leaves: seq<(string, string)>, i: nat)
    requires DistinctKeys(leaves)
    ensures |LayerMapping(leaves, i)| == |leaves|
  {
    LayerPairsDistinct(leaves, i);
    MapOfSize(LayerPairs(leaves, i));
  }

  /** In the literal of layer `i`, weight `j` is named `LayerKey(i, j)` and bound to `LayerTarget(i, j)`. */
  lemma LayerMappingEntry(leaves: seq<(string, string)>, i: nat, j: nat)
    requires DistinctKeys(leaves) && j < |leaves|
    ensures LayerKey(leaves, i, j) in LayerMapping(leaves, i)
    ensures LayerMapping(leaves, i)[LayerKey(leaves, i, j)] == LayerTarget(leaves, i, j)
  {
    LayerPairsDistinct(leaves, i);
    MapOfValue(LayerPairs(leaves, i), j);
  }

  /** The literal of layer `i` has no key besides its weight names. */
  lemma LayerMappingDomain(leaves: seq<(string, string)>, i: nat, key: string)
    requires key in LayerMapping(leaves, i)
    ensures exists j :: 0 <= j < |leaves| && key == LayerKey(leaves, i, j)
  {
    var ps := LayerPairs(leaves, i);
    MapOfDomain(ps, key);
    var j :| 0 <= j < |ps| && ps[j].0 == key;
    assert key == LayerKey(leaves, i, j);
  }

  /** No layer key is one of the fixed keys. */
  lemma LayerKeyNotFixed(fixed: seq<(string, string)>, leaves: seq<(string, string)>, i: nat, j: nat)
    requires Unambiguous(fixed, leaves) && j < |leaves|
    ensures LayerKey(leaves, i, j) !in MapOf(fixed)
  {
    var key := LayerKey(leaves, i, j);
    TaggedStartsWith(LayerKeyHead, i, leaves[j].0);
    if key in MapOf(fixed) {
      MapOfDomain(fixed, key);
    }
  }

  // ---------------------------------------------------------------------
  // The table after the loop

  /** The layer keys below `n + 1` are those below `n` and the keys of layer `n`. */
  lemma LayerKeysStep(leaves: seq<(string, string)>, n: nat, key: string)
    requires DistinctKeys(leaves)
    ensures IsLayerKeyBelow(leaves, key, n + 1) <==> IsLayerKeyBelow(leaves, key, n) || key in LayerMapping(leaves, n)
  {
    if key in LayerMapping(leaves, n) {
      LayerMappingDomain(leaves, n, key);
      var j :| 0 <= j < |leaves| && key == LayerKey(leaves, n, j);
      assert IsLayerKeyBelow(leaves, key, n + 1);
    }
    if IsLayerKeyBelow(leaves, key, n) {
      var i: nat, j: nat :| i < n && j < |leaves| && key == LayerKey(leaves, i, j);
      assert IsLayerKeyBelow(leaves, key, n + 1);
    }
    if IsLayerKeyBelow(leaves, key, n + 1) {
      var i: nat, j: nat :| i < n + 1 && j < |leaves| && key == LayerKey(leaves, i, j);
      if i < n {
        assert IsLayerKeyBelow(leaves, key, n);
      } else {
        LayerMappingEntry(leaves, n, j);
      }
    }
  }

  /** A key is in the table exactly when it is a fixed key or the name of a
      weight of a layer in `range(numLayers)`. */
  lemma {:induction false} MappingKeys(fixed: seq<(string, string)>, leaves: seq<(string, string)>, numLayers: int, key: string)
    requires DistinctKeys(leaves)
    ensures key in Translation(fixed, leaves, numLayers) <==> key in MapOf(fixed) || IsLayerKeyBelow(leaves, key, numLayers)
    decreases numLayers
  {
    if numLayers > 0 {
      MappingKeys(fixed, leaves, numLayers - 1, key);
      LayerKeysStep(leaves, numLayers - 1, key);
    }
  }

  /** The `update` for layer `n` only adds keys that are not yet in the table,
      so it never overwrites an earlier entry. */
  lemma UpdateAddsFreshKeys(fixed: seq<(string, string)>, leaves: seq<(string, string)>, n: nat)
    requires Unambiguous(fixed, leaves)
    ensures Translation(fixed, leaves, n).Keys !! LayerMapping(leaves, n).Keys
  {
    forall key | key in LayerMapping(leaves, n) ensures key !in Translation(fixed, leaves, n) {
      LayerMappingDomain(leaves, n, key);
      var j :| 0 <= j < |leaves| && key == LayerKey(leaves, n, j);
      LayerKeyNotFixed(fixed, leaves, n, j);
      MappingKeys(fixed, leaves, n, key);
      if IsLayerKeyBelow(leaves, key, n) {
        var i: nat, j': nat :| i < n && j' < |leaves| && key == LayerKey(leaves, i, j');
        TaggedUnique(LayerKeyHead, n, leaves[j].0, i, leaves[j'].0);
      }
    }
  }

  /** One round of the loop: the `update` for layer `m - 1` adds one key per leaf. */
  lemma UpdateGrows(fixed: seq<(string, string)>, leaves: seq<(string, string)>, m: int)
    requires Unambiguous(fixed, leaves) && m > 0
    ensures |Translation(fixed, leaves, m)| == |Translation(fixed, leaves, m - 1)| + |leaves|
  {
    LayerMappingSize(leaves, m - 1);
    UpdateAddsFreshKeys(fixed, leaves, m - 1);
    UpdateFresh(Translation(fixed, leaves, m - 1), LayerMapping(leaves, m - 1));
  }

  /** One round of the loop keeps every earlier entry. */
  lemma UpdateKeeps(fixed: seq<(string, string)>, leaves: seq<(string, string)>, m: int, key: string)
    requires Unambiguous(fixed, leaves) && m > 0 && key in Translation(fixed, leaves, m - 1)
    ensures key in Translation(fixed, leaves, m)
    ensures Translation(fixed, leaves, m)[key] == Translation(fixed, leaves, m - 1)[key]
  {
    UpdateAddsFreshKeys(fixed, leaves, m - 1);
    assert key !in LayerMapping(leaves, m - 1);
  }

  /** An entry present for `n` layers is present, unchanged, for every `m >= n` layers. */
  lemma {:induction false} EntryKept(fixed: seq<(string, string)>, leaves: seq<(string, string)>, n: int, m: int, key: string)
    requires Unambiguous(fixed, leaves) && n <= m && key in Translation(fixed, leaves, n)
    ensures key in Translation(fixed, leaves, m)
    ensures Translation(fixed, leaves, m)[key] == Translation(fixed, leaves, n)[key]
    decreases m - n
  {
    if n < m {
      EntryKept(fixed, leaves, n, m - 1, key);
      if m > 0 {
        UpdateKeeps(fixed, leaves, m, key);
      }
    }
  }

  /** More layers only add entries: the table for `n` is a sub-map of the table for any `m >= n`. */
  lemma MappingMonotone(fixed: seq<(string, string)>, leaves: seq<(string, string)>, n: int, m: int)
    requires Unambiguous(fixed, leaves) && n <= m
    ensures forall key :: key in Translation(fixed, leaves, n) ==>
      key in Translation(fixed, leaves, m) && Translation(fixed, leaves, m)[key] == Translation(fixed, leaves, n)[key]
  {
    forall key | key in Translation(fixed, leaves, n)
      ensures key in Translation(fixed, leaves, m) && Translation(fixed, leaves, m)[key] == Translation(fixed, leaves, n)[key]
    {
      EntryKept(fixed, leaves, n, m, key);
    }
  }

  /** Without layers (`num_hidden_layers <= 0`, so `range` is empty) the table
      is the initial literal, with one key per entry. */
  lemma NoLayers(fixed: seq<(string, string)>, leaves: seq<(string, string)>, numLayers: int)
    requires DistinctKeys(fixed) && numLayers <= 0
    ensures Translation(fixed, leaves, numLayers) == MapOf(fixed)
    ensures |Translation(fixed, leaves, numLayers)| == |fixed|
  {
    MapOfSize(fixed);
  }

  /** With `n >= 0` layers of sixteen weights each, the table has `|fixed| + 16 * n` keys. */
  lemma {:induction false} MappingSize(fixed: seq<(string, string)>, leaves: seq<(string, string)>, numLayers: int)
    requires Unambiguous(fixed, leaves) && |leaves| == 16 && numLayers >= 0
    ensures |Translation(fixed, leaves, numLayers)| == |fixed| + 16 * numLayers
    decreases numLayers
  {
    if numLayers == 0 {
      NoLayers(fixed, leaves, numLayers);
    } else {
      MappingSize(fixed, leaves, numLayers - 1);
      UpdateGrows(fixed, leaves, numLayers);
    }
  }

  /** Every fixed entry is present with its listed name, whatever the layer count. */
  lemma FixedEntriesPresent(fixed: seq<(string, string)>, leaves: seq<(string, string)>, numLayers: int)
    requires Unambiguous(fixed, leaves)
    ensures forall j :: 0 <= j < |fixed| ==>
      fixed[j].0 in Translation(fixed, leaves, numLayers) && Translation(fixed, leaves, numLayers)[fixed[j].0] == fixed[j].1
  {
    var none := if numLayers < 0 then numLayers else 0;
    forall j | 0 <= j < |fixed|
      ensures fixed[j].0 in Translation(fixed, leaves, numLayers) && Translation(fixed, leaves, numLayers)[fixed[j].0] == fixed[j].1
    {
      MapOfValue(fixed, j);
      EntryKept(fixed, leaves, none, numLayers, fixed[j].0);
    }
  }

  /** For each layer `i` in `range(numLayers)` and each weight `j`, the key
      `bert-layer-{i}/<leaf>` maps to `bert/encoder/layer_{i}/<name>`, with the same `i` on both sides. */
  lemma LayerEntryPresent(fixed: seq<(string, string)>, leaves: seq<(string, string)>, numLayers: int, i: nat, j: nat)
    requires Unambiguous(fixed, leaves) && i < numLayers && j < |leaves|
    ensures LayerKey(leaves, i, j) in Translation(fixed, leaves, numLayers)
    ensures Translation(fixed, leaves, numLayers)[LayerKey(leaves, i, j)] == LayerTarget(leaves, i, j)
  {
    LayerMappingEntry(leaves, i, j);
    assert Translation(fixed, leaves, i + 1) == Translation(fixed, leaves, i) + LayerMapping(leaves, i);
    EntryKept(fixed, leaves, i + 1, numLayers, LayerKey(leaves, i, j));
  }

  /** No key names a layer outside `range(numLayers)`, whatever follows the index. */
  lemma NoKeyOutsideRange(fixed: seq<(string, string)>, leaves: seq<(string, string)>, numLayers: int, i: nat, leaf: string)
    requires Unambiguous(fixed, leaves) && numLayers <= i
    ensures Tagged(LayerKeyHead, i, leaf) !in Translation(fixed, leaves, numLayers)
  {
    var key := Tagged(LayerKeyHead, i, leaf);
    MappingKeys(fixed, leaves, numLayers, key);
    TaggedStartsWith(LayerKeyHead, i, leaf);
    if key in MapOf(fixed) {
      MapOfDomain(fixed, key);
    }
    if IsLayerKeyBelow(leaves, key, numLayers) {
      var i': nat, j: nat :| i' < numLayers && j < |leaves| && key == LayerKey(leaves, i', j);
      TaggedUnique(LayerKeyHead, i, leaf, i', leaves[j].0);
    }
  }

  /** Each key of the table is bound to its fixed name or to its layer's name. */
  lemma MappingValue(fixed: seq<(string, string)>, leaves: seq<(string, string)>, numLayers: int, key: string)
    requires Unambiguous(fixed, leaves) && key in Translation(fixed, leaves, numLayers)
    ensures key in MapOf(fixed) ==> Translation(fixed, leaves, numLayers)[key] == MapOf(fixed)[key]
    ensures key !in MapOf(fixed) ==>
      exists i: nat, j: nat :: i < numLayers && j < |leaves| &&
        key == LayerKey(leaves, i, j) && Translation(fixed, leaves, numLayers)[key] == LayerTarget(leaves, i, j)
  {
    MappingKeys(fixed, leaves, numLayers, key);
    if key in MapOf(fixed) {
      var none := if numLayers < 0 then numLayers else 0;
      EntryKept(fixed, leaves, none, numLayers, key);
    } else {
      var i: nat, j: nat :| i < numLayers && j < |leaves| && key == LayerKey(leaves, i, j);
      LayerEntryPresent(fixed, leaves, numLayers, i, j);
    }
  }

  /** A fixed checkpoint name is never the name of a layer weight. */
  lemma FixedNameNotLayerName(fixed: seq<(string, string)>, leaves: seq<(string, string)>, key: string, i: nat, j: nat)
    requires Unambiguous(fixed, leaves) && key in MapOf(fixed) && j < |leaves|
    ensures MapOf(fixed)[key] != LayerTarget(leaves, i, j)
  {
    MapOfDomain(fixed, key);
    var k :| 0 <= k < |fixed| && fixed[k].0 == key;
    MapOfValue(fixed, k);
    TaggedStartsWith(LayerTargetHead, i, leaves[j].1);
  }

  /** Distinct layer weights have distinct checkpoint names. */
  lemma LayerNamesDiffer(leaves: seq<(string, string)>, i: nat, j: nat, i': nat, j': nat)
    requires DistinctValues(leaves) && j < |leaves| && j' < |leaves| && (i, j) != (i', j')
    ensures LayerTarget(leaves, i, j) != LayerTarget(leaves, i', j')
  {
    if LayerTarget(leaves, i, j) == LayerTarget(leaves, i', j') {
      TaggedUnique(LayerTargetHead, i, leaves[j].1, i', leaves[j'].1);
    }
  }

  /** Two distinct keys of the table are bound to distinct checkpoint names. */
  lemma NamesDiffer(fixed: seq<(string, string)>, leaves: seq<(string, string)>, numLayers: int, x: string, y: string)
    requires Unambiguous(fixed, leaves)
    requires x in Translation(fixed, leaves, numLayers) && y in Translation(fixed, leaves, numLayers) && x != y
    ensures Translation(fixed, leaves, numLayers)[x] != Translation(fixed, leaves, numLayers)[y]
  {
    var m := Translation(fixed, leaves, numLayers);
    MappingValue(fixed, leaves, numLayers, x);
    MappingValue(fixed, leaves, numLayers, y);
    if x in MapOf(fixed) && y in MapOf(fixed) {
      MapOfInjective(fixed);
    } else if x in MapOf(fixed) {
      var i: nat, j: nat :| i < numLayers && j < |leaves| && y == LayerKey(leaves, i, j) && m[y] == LayerTarget(leaves, i, j);
      FixedNameNotLayerName(fixed, leaves, x, i, j);
    } else if y in MapOf(fixed) {
      var i: nat, j: nat :| i < numLayers && j < |leaves| && x == LayerKey(leaves, i, j) && m[x] == LayerTarget(leaves, i, j);
      FixedNameNotLayerName(fixed, leaves, y, i, j);
    } else {
      var i: nat, j: nat :| i < numLayers && j < |leaves| && x == LayerKey(leaves, i, j) && m[x] == LayerTarget(leaves, i, j);
      var i': nat, j': nat :| i' < numLayers && j' < |leaves| && y == LayerKey(leaves, i', j') && m[y] == LayerTarget(leaves, i', j');
      LayerNamesDiffer(leaves, i, j, i', j');
    }
  }

  /** Distinct Keras names are translated to distinct checkpoint names. */
  lemma MappingInjective(fixed: seq<(string, string)>, leaves: seq<(string, string)>, numLayers: int)
    requires Unambiguous(fixed, leaves)
    ensures Injective(Translation(fixed, leaves, numLayers))
  {
    var m := Translation(fixed, leaves, numLayers);
    forall x, y | x in m && y in m && x != y ensures m[x] != m[y] {
      NamesDiffer(fixed, leaves, numLayers, x, y);
    }
  }
}
