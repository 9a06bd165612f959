# NEZHA weight-name translation table, in Dafny

This project models `variable_mapping(num_hidden_layers)` from the TensorFlow
NEZHA example (`examples/tensorflow/run_nezha.py`). The function builds the
dictionary that renames the weights of the Keras NEZHA/BERT model to the
variable names of the official BERT checkpoint. For example,
`bert-layer-3/feedforward/input/kernel` becomes
`bert/encoder/layer_3/intermediate/dense/kernel`. The dictionary starts from
a literal with sixteen fixed entries: embeddings, the embedding-to-hidden
mapping, the pooler, and the NSP and MLM heads. Then, for each `i` in
`range(num_hidden_layers)`, `update` adds sixteen entries whose keys and
names both carry the decimal index `i`.

Files:

- `decimal.dfy` (module `Decimal`): the decimal text of a non-negative
  integer, as `'%d' % i` and `f"{i}"` print it. It includes a parser and the
  round trip `Parse(Format(n)) == n`, so distinct indices give distinct
  text.
- `dicts.dfy` (module `Dicts`): Python dictionary literals as Dafny maps.
  `MapOf` evaluates a literal's entries left to right, and a repeated key
  keeps its last value. `dict.update(e)` is the right-biased union `d + e`.
- `run_nezha.dfy` (module `RunNezha`): the two literal tables of the source,
  the method `VariableMapping` and its specification function.
  - `VariableMapping` is a `while` loop over a `map` variable, the way the
    source mutates `mapping` in a `for` loop.
  - The specification function is `Translation(fixed, leaves, n)`, and
    `MappingOf(n)` is `Translation(FixedPairs, LayerLeaves, n)`.
  - The lemmas about the table are stated for any initial literal `fixed` and
    per-layer template `leaves` that satisfy `Unambiguous`: no key or name
    written twice, and no fixed key or name that starts like a layer key
    (`bert-layer-`) or a layer name (`bert/encoder/layer_`).
  - `SourceTables` proves that the source's two tables satisfy
    `Unambiguous` and have sixteen entries each, so every lemma holds for
    `MappingOf(n)`.

## Model

| member | source | states |
|---|---|---|
| RunNezha.VariableMapping | examples/tensorflow/run_nezha.py:34-78 | The loop (literal, then one `update` per layer in `range(num_hidden_layers)`) returns exactly `MappingOf(num_hidden_layers)`. That table has `16 + 16 * n` keys for `n >= 0` and 16 keys for `n <= 0`. Distinct keys are mapped to distinct checkpoint names. |
| RunNezha.SourceMappingShape | examples/tensorflow/run_nezha.py:38-78 | For the source's tables, the table has `16 + 16 * max(n, 0)` keys and is injective. |
| RunNezha.SourceTables | examples/tensorflow/run_nezha.py:38-75 | The initial literal and the per-layer literal have sixteen entries each and meet `Unambiguous`. |
| RunNezha.FixedEntryFresh | examples/tensorflow/run_nezha.py:39-54 | No fixed entry repeats the key or the checkpoint name of an earlier entry. |
| RunNezha.FixedTableDistinct | examples/tensorflow/run_nezha.py:39-54 | The initial literal has 16 entries with pairwise distinct keys and pairwise distinct names. |
| RunNezha.LeafFresh | examples/tensorflow/run_nezha.py:60-75 | No per-layer entry repeats the key suffix or the name suffix of an earlier one. |
| RunNezha.LeafTableDistinct | examples/tensorflow/run_nezha.py:60-75 | The per-layer literal has 16 entries with pairwise distinct key suffixes and pairwise distinct name suffixes. |
| RunNezha.FixedKeysNotLayered | examples/tensorflow/run_nezha.py:39-54 | No fixed key (`embedding-*`, `bert-output/*`) starts with `bert-layer-`. |
| RunNezha.FixedNamesNotLayered | examples/tensorflow/run_nezha.py:39-54 | No fixed checkpoint name starts with `bert/encoder/layer_`. This covers `bert/encoder/embedding_hidden_mapping_in/*`. |
| RunNezha.TaggedStartsWith | examples/tensorflow/run_nezha.py:58-75 | A per-layer key or name starts with its head, `bert-layer-` or `bert/encoder/layer_`. |
| RunNezha.TaggedUnique | examples/tensorflow/run_nezha.py:58-75 | Two per-layer names with the same head are equal only if their indices and suffixes are equal. The `/` after the digits marks where the index ends. |
| RunNezha.LayerPairsDistinct | examples/tensorflow/run_nezha.py:59-76 | The literal passed to `update` for layer `i` has no repeated key. |
| RunNezha.LayerMappingSize | examples/tensorflow/run_nezha.py:59-76 | The literal for layer `i` has one key per suffix, so 16 for the source. |
| RunNezha.LayerMappingEntry | examples/tensorflow/run_nezha.py:58-75 | In the literal for layer `i`, the key `bert-layer-{i}/<suffix j>` maps to `bert/encoder/layer_{i}/<name j>`. |
| RunNezha.LayerMappingDomain | examples/tensorflow/run_nezha.py:59-76 | The literal for layer `i` has no keys other than those sixteen. |
| RunNezha.LayerKeyNotFixed | examples/tensorflow/run_nezha.py:38-76 | No per-layer key is a key of the initial literal. |
| RunNezha.LayerKeysStep | examples/tensorflow/run_nezha.py:57-76 | The layer keys for `range(n + 1)` are the layer keys for `range(n)` plus the keys added by the `update` for layer `n`. |
| RunNezha.MappingKeys | examples/tensorflow/run_nezha.py:38-78 | A key is in the result if and only if it is a fixed key or `bert-layer-{i}/<suffix j>` for some `i` in `range(n)` and some listed suffix. |
| RunNezha.UpdateAddsFreshKeys | examples/tensorflow/run_nezha.py:57-76 | The keys added by the `update` for layer `n` are all new to the table built so far, so no earlier entry is overwritten. |
| RunNezha.UpdateGrows | examples/tensorflow/run_nezha.py:57-76 | One pass of the loop adds exactly one key per suffix. |
| RunNezha.UpdateKeeps | examples/tensorflow/run_nezha.py:57-76 | One pass of the loop keeps every earlier key with its earlier name. |
| RunNezha.EntryKept | examples/tensorflow/run_nezha.py:57-76 | An entry present for `n` layers is present with the same name for every `m >= n`. |
| RunNezha.MappingMonotone | examples/tensorflow/run_nezha.py:57-76 | For `n <= m`, the table for `n` layers is a sub-map of the table for `m` layers. |
| RunNezha.NoLayers | examples/tensorflow/run_nezha.py:57 | For `num_hidden_layers <= 0`, `range` is empty and the result is exactly the initial literal, with one key per entry. |
| RunNezha.MappingSize | examples/tensorflow/run_nezha.py:38-78 | For `n >= 0` layers of sixteen weights, the result has `len(fixed) + 16 * n` keys, which is `16 + 16 * n` for the source. |
| RunNezha.FixedEntriesPresent | examples/tensorflow/run_nezha.py:38-55 | Every fixed entry is in the result with exactly its listed name, for every `num_hidden_layers`. |
| RunNezha.LayerEntryPresent | examples/tensorflow/run_nezha.py:57-76 | For every `i` in `range(n)` and every suffix `j`, `bert-layer-{i}/<suffix j>` maps to `bert/encoder/layer_{i}/<name j>`, with the same decimal `i` on both sides. |
| RunNezha.NoKeyOutsideRange | examples/tensorflow/run_nezha.py:57 | For `i >= n`, no key `bert-layer-{i}/...` is in the result, whatever follows the index. |
| RunNezha.MappingValue | examples/tensorflow/run_nezha.py:38-76 | Every key of the result maps to its fixed name, or else it is the key of some layer `i < n` and suffix `j` and maps to that layer's name. |
| RunNezha.FixedNameNotLayerName | examples/tensorflow/run_nezha.py:39-75 | No fixed checkpoint name equals a per-layer checkpoint name. |
| RunNezha.LayerNamesDiffer | examples/tensorflow/run_nezha.py:58-75 | Different (layer, suffix) pairs give different checkpoint names. |
| RunNezha.NamesDiffer | examples/tensorflow/run_nezha.py:39-75 | Two distinct keys of the result map to distinct checkpoint names. |
| RunNezha.MappingInjective | examples/tensorflow/run_nezha.py:39-75 | The result is injective: distinct Keras names translate to distinct checkpoint names. |
| Decimal.DigitChar | examples/tensorflow/run_nezha.py:58 | The character for a digit `d < 10` is an ASCII digit with value `d`. |
| Decimal.DigitValue | examples/tensorflow/run_nezha.py:58 | The value of a digit character is below 10, and `DigitChar` maps it back to that character. |
| Decimal.Format | examples/tensorflow/run_nezha.py:58-60 | The decimal text of `i >= 0` is a non-empty string of digits. It starts with `0` only when `i == 0`. |
| Decimal.ParseFormat | examples/tensorflow/run_nezha.py:58-60 | Reading back the decimal text of `i` gives `i`. |
| Decimal.FormatInjective | examples/tensorflow/run_nezha.py:58-60 | Distinct indices have distinct decimal texts. |
| Dicts.MapOfDomain | examples/tensorflow/run_nezha.py:38-55 | A key is in a dictionary literal if and only if it is written in one of its entries. |
| Dicts.MapOfValue | examples/tensorflow/run_nezha.py:38-55 | In a literal with no repeated key, every entry is present with its own value. |
| Dicts.MapOfSize | examples/tensorflow/run_nezha.py:38-55 | A literal with no repeated key has one key per entry. |
| Dicts.MapOfInjective | examples/tensorflow/run_nezha.py:38-55 | A literal with no repeated key and no repeated value is injective. |
| Dicts.UpdateFresh | examples/tensorflow/run_nezha.py:59-76 | `d.update(e)` with keys new to `d` has `len(d) + len(e)` keys and keeps every entry of `d`. |

## Left out

- `actuator` in `examples/tensorflow/run_nezha.py`, `examples/tensorflow/run_re2.py` and `sim/rnn_base/torch_actuator.py` is left out. It is file and JSON I/O, logging with the clock, calls into helpers that are not part of this model, and TensorFlow/PyTorch model construction.
- `TextPairPipeline._train_step` and `_valid_step` in `sim/rnn_base/torch_actuator.py` are left out. They are floating-point tensor math plus autodiff and optimiser steps run by PyTorch.
- `CustomPipeline._metrics` in `examples/tensorflow/run_re2.py` is left out. It is softmax and cross-entropy over floats, computed by Keras.
- Seeding of global random generators and cuDNN flags is left out. This is process-wide state inside foreign libraries.
- Keras layer and model assembly and BERT weight loading in `examples/tensorflow/run_nezha.py` are left out. They are thin wrappers over framework code.
- `inference` and `_save_model` in `sim/rnn_base/torch_actuator.py` are left out. They are empty stubs with no behaviour to model.
- `num_hidden_layers` is modelled as an integer. Python would raise `TypeError` in `range` for a float or a string, and that error path is not modelled.
- The dictionary is modelled as a map value that the loop reassigns. The source mutates one dict object in place. That object is created inside the function and not shared before it is returned, so aliasing plays no part.
- RunNezha.MappingSize is stated for per-layer templates of sixteen entries, the width of the source's literal, rather than for templates of any width.
