# Grasp-selection bandit policies and mesh category indexes, in Dafny

This project models two pieces of a grasp-selection research codebase.

**Discrete selection policies** (`src/grasp_selection/discrete_selection_policies.py`).
A policy holds a reference to a predictive model and, on each `choose_next`,
picks the arm (grasp candidate) to evaluate next:

- the uniform policy draws an index below `num_vars()`;
- the greedy policy picks one of the tied indices that `max_prediction()` reports;
- Thompson sampling takes one posterior draw per arm and picks one of the arms
  where the draw is largest;
- the Beta-Bernoulli Gittins-index policy (discount 0.98) turns the posterior
  pseudo-counts into 0-based table positions and clamps them to the table. It
  then reads the precomputed index of every arm and picks one of the arms where
  that index is largest.

The policy family is one class, `DiscreteSelectionPolicy`, with a constant
`variant` tag. The Gittins variant carries its lookup table. `set_model` is a
method on its mutable `model` field. The Uniform, Max and Thompson bodies are
functions over the values they read from the model. The Gittins lookup works
on arrays: a truncating cast to `uint64` (which copies), a decrement, a masked
clamp in place, and the table read. The source's decrement builds a new array;
the model decrements the cast's private copy in place, which no caller can
tell apart. It is a method with loops (`GittinsIndex.LookupScores`), proved
equal to the specification function `GittinsIndex.Scores`.

The model is an external collaborator. A policy sees only what it reads from
the model during one call, so the model is a value, `DiscreteModel`. It holds
`num_vars()`, the draw that `sample()` returns on this call, the tied indices
of `max_prediction()`, and the posterior alphas and betas. The alphas and betas
are present exactly when the model is a `BetaBernoulliModel`. An object that is
not a discrete model is `Foreign`. The constructor stores any object without
checking it. `set_model` refuses a `Foreign` object.

Randomness is injected. `draw` is the raw value of the random source, and
`np.random.choice(n)` is `draw % n`. Every index below `n` is therefore the
outcome of some draw. Lemmas state that every tied arm can be chosen.

**Mesh category indexes** (`src/grasp_selection/feature_vectors/mesh_database.py`).
An index file maps object keys to category names. Each line is given already
split on whitespace. A Cat50 line is `key category`. A SHREC file has three
header lines. After them, a 3-token line sets the current category, and a
1-token line `t` stores key `"M" + t` under that category and appends the key
to the ordered key list. Both readers are loops (`ReadCat50Index`,
`ReadShrecIndex`) proved equal to left folds (`Cat50Dict`, `ShrecFold`). The
lemmas state what the folds mean. The class `MeshDatabase` (with a format tag)
stores the result and offers the accessors.

Errors the source raises are `Failure` values:

- `ModelNotSet`: `choose_next` with no model attached.
- `NotADiscreteModel`: `set_model` given something else.
- `NotBetaBernoulli`: the Gittins policy on another kind of model.
- `MissingModelMethod`: the attached object lacks `num_vars`, `sample` or `max_prediction`.
- `NoCandidates`: `np.random.choice(0)`, or `np.max` of an empty array.
- `MissingToken(line)`: a Cat50 line with fewer than two tokens.
- `MissingHeader`: a SHREC file with fewer than three lines.

The source raises `ValueError` for the first three, `AttributeError` for the
fourth, `ValueError` from NumPy for the fifth, `IndexError` for the sixth and
`StopIteration` for the last.

Some behaviour follows the code where a reader might expect otherwise:

- The policies' `__init__` stores any object unchecked; only `set_model` checks.
- The Gittins decrement is `uint64` arithmetic. An arm whose pseudo-count is
  below 1 truncates to 0, wraps to 2^64 - 1, and is then clamped to the
  table's LAST row or column (`ZeroCountWrapsToLastIndex`). So the model only
  asks that the counts be castable, `0 <= c < 2^64`, not that they be at least 1.
- A SHREC file shorter than three lines is an error, not an empty index.

## Model

| member | source | states |
|---|---|---|
| `ArgMax.MaxOf` | src/grasp_selection/discrete_selection_policies.py:61 | `np.max`: the result is an element of the non-empty vector and no element exceeds it |
| `ArgMax.IndicesOf` | src/grasp_selection/discrete_selection_policies.py:61 | `np.where(v == x)[0]`: exactly the indices holding `x`, strictly increasing |
| `ArgMax.Ties` | src/grasp_selection/discrete_selection_policies.py:61 | the tie set is non-empty and holds exactly the indices attaining the maximum |
| `ArgMax.Draw` | src/grasp_selection/discrete_selection_policies.py:39 | `np.random.choice(n)` returns an index below `n` |
| `ArgMax.Choice` | src/grasp_selection/discrete_selection_policies.py:63-64 | the random pick from a non-empty candidate list is one of the candidates |
| `ArgMax.DrawCovers` | src/grasp_selection/discrete_selection_policies.py:39 | every index below `n` is the outcome of some draw |
| `ArgMax.ChoiceCovers` | src/grasp_selection/discrete_selection_policies.py:62-64 | every candidate is the pick for some draw |
| `ArgMax.TieBreakIsArgMax` | src/grasp_selection/discrete_selection_policies.py:61-64 | the tie-broken pick is in range and attains the maximum |
| `ArgMax.TieBreakReachesEveryMaximum` | src/grasp_selection/discrete_selection_policies.py:61-64 | every index attaining the maximum is the tie-broken pick for some draw |
| `ArgMax.UniqueMaximumIsChosen` | src/grasp_selection/discrete_selection_policies.py:94-98 | with a strict unique maximum the pick is that index for every draw |
| `GittinsIndex.Decrement` | src/grasp_selection/discrete_selection_policies.py:84-85 | `uint64` minus one: the predecessor for positive values, 2^64 - 1 for zero |
| `GittinsIndex.Clamp` | src/grasp_selection/discrete_selection_policies.py:88-89 | the masked assignment on one element: the result is below the size, and an element already below it is kept; `ClampInPlace` applies it to the array |
| `GittinsIndex.TableIndex` | src/grasp_selection/discrete_selection_policies.py:80-89 | the looked-up row (column) is always below the table size, and for a count of at least 1 it is `min(floor(count) - 1, size - 1)` |
| `GittinsIndex.Scores` | src/grasp_selection/discrete_selection_policies.py:92 | one looked-up Gittins index per arm |
| `GittinsIndex.CastToUInt64` | src/grasp_selection/discrete_selection_policies.py:80-81 | `astype(np.uint64)` gives a fresh array of the truncated counts, each below 2^64 |
| `GittinsIndex.RebaseInPlace` | src/grasp_selection/discrete_selection_policies.py:84-85 | every element is replaced by its `uint64` predecessor, in place |
| `GittinsIndex.ClampInPlace` | src/grasp_selection/discrete_selection_policies.py:88-89 | every element at or past `size` becomes `size - 1`, the others are kept, and all end below `size` |
| `GittinsIndex.LookupScores` | src/grasp_selection/discrete_selection_policies.py:80-92 | the in-place cast, re-base, clamp and table read yield exactly the specified per-arm indices, with every table access in bounds |
| `GittinsIndex.RebasedIndex` | src/grasp_selection/discrete_selection_policies.py:83-89 | a count of at least 1 is read at `count - 1` or, if that is past the end, at the last index, never beyond `count - 1` |
| `GittinsIndex.ZeroCountWrapsToLastIndex` | src/grasp_selection/discrete_selection_policies.py:80-89 | a count below 1 wraps around and is read at the table's last row (column) |
| `GittinsIndex.LargeCountSaturates` | src/grasp_selection/discrete_selection_policies.py:87-89 | a count past the table's end is read at its last row (column) instead of out of range |
| `DiscreteSelectionPolicies.Attached` | src/grasp_selection/discrete_selection_policies.py:36-38 | no model gives `ModelNotSet`, a non-model object gives `MissingModelMethod`, a discrete model is read as is |
| `DiscreteSelectionPolicies.UniformChooseNext` | src/grasp_selection/discrete_selection_policies.py:34-40 | succeeds exactly when a discrete model with `num_vars() >= 1` is attached, and then returns an index below `num_vars()`; otherwise fails with `ModelNotSet`, `MissingModelMethod` or `NoCandidates` |
| `DiscreteSelectionPolicies.MaxChooseNext` | src/grasp_selection/discrete_selection_policies.py:43-50 | succeeds exactly when a discrete model reporting at least one tied index is attached, and then returns one of those indices; otherwise fails with the matching error |
| `DiscreteSelectionPolicies.ThompsonChooseNext` | src/grasp_selection/discrete_selection_policies.py:54-64 | succeeds exactly when a discrete model with a non-empty posterior draw is attached, and then returns an index of the draw attaining its maximum; otherwise fails with the matching error |
| `DiscreteSelectionPolicies.GittinsChooseNext` | src/grasp_selection/discrete_selection_policies.py:73-98 | succeeds exactly when a Beta-Bernoulli model with at least one arm is attached, and then returns an arm whose looked-up index is the maximum over all arms; otherwise fails with `ModelNotSet`, `NotBetaBernoulli` or `NoCandidates` |
| `DiscreteSelectionPolicies.Select` | src/grasp_selection/discrete_selection_policies.py:21-26 | every variant fails with `ModelNotSet` when no model is attached and fails on an object that is not a model |
| `DiscreteSelectionPolicies.DiscreteSelectionPolicy.constructor` | src/grasp_selection/discrete_selection_policies.py:18-19 | the policy stores the given model (or none) unchecked, with its variant and table |
| `DiscreteSelectionPolicies.DiscreteSelectionPolicy.SetModel` | src/grasp_selection/discrete_selection_policies.py:28-31 | a non-model is refused with `NotADiscreteModel` and the model is left as it was; a discrete model replaces the attached one |
| `DiscreteSelectionPolicies.DiscreteSelectionPolicy.ChooseNext` | src/grasp_selection/discrete_selection_policies.py:73-98 | each variant's `choose_next`, including the array-based Gittins lookup, returns what its specification function gives, and changes nothing |
| `DiscreteSelectionPolicies.ChosenArmInRange` | src/grasp_selection/discrete_selection_policies.py:33-98 | on a well-formed model with `num_vars() >= 1` every policy returns an arm index below `num_vars()` (the greedy policy given at least one tied index, the Gittins policy given a Beta-Bernoulli model), and any success is below `num_vars()` |
| `DiscreteSelectionPolicies.UniformReachesEveryArm` | src/grasp_selection/discrete_selection_policies.py:38-40 | every arm is the uniform choice for some draw |
| `DiscreteSelectionPolicies.MaxReachesEveryTiedArm` | src/grasp_selection/discrete_selection_policies.py:47-50 | every tied index of `max_prediction()` is the greedy choice for some draw |
| `DiscreteSelectionPolicies.ThompsonReachesEveryTiedArm` | src/grasp_selection/discrete_selection_policies.py:58-64 | every arm attaining the maximal posterior draw is the Thompson choice for some draw |
| `DiscreteSelectionPolicies.GittinsReachesEveryTiedArm` | src/grasp_selection/discrete_selection_policies.py:92-98 | every arm attaining the maximal Gittins index is the choice for some draw |
| `DiscreteSelectionPolicies.GittinsUniqueMaximumIsChosen` | src/grasp_selection/discrete_selection_policies.py:91-98 | an arm whose Gittins index is strictly largest is chosen whatever the draw |
| `MeshCategories.Cat50Dict` | src/grasp_selection/feature_vectors/mesh_database.py:23-31 | the reference definition of Cat50 reading, characterised by `Cat50FailsAtFirstShortLine`, `Cat50Keys` and `Cat50LastOccurrenceWins`, and matched by the loop in `ReadCat50Index` |
| `MeshCategories.Cat50FailureSticks` | src/grasp_selection/feature_vectors/mesh_database.py:26-30 | once a line fails, the rest of the file cannot recover |
| `MeshCategories.Cat50FailsAtFirstShortLine` | src/grasp_selection/feature_vectors/mesh_database.py:27-29 | a Cat50 file fails exactly when some line has fewer than two tokens, and the error names the first such line |
| `MeshCategories.Cat50Keys` | src/grasp_selection/feature_vectors/mesh_database.py:26-31 | when every line has two tokens the read succeeds, and its keys are exactly the lines' first tokens |
| `MeshCategories.Cat50LastOccurrenceWins` | src/grasp_selection/feature_vectors/mesh_database.py:26-31 | a key maps to the second token of its last line |
| `MeshCategories.ReadCat50Index` | src/grasp_selection/feature_vectors/mesh_database.py:23-31 | the line-by-line dictionary building gives the Cat50 fold, including its first error |
| `MeshCategories.ShrecKey` | src/grasp_selection/feature_vectors/mesh_database.py:50 | the key `"M" + token` of a 1-token line; `ShrecKeyInjective` shows distinct tokens give distinct keys |
| `MeshCategories.ShrecStep` | src/grasp_selection/feature_vectors/mesh_database.py:45-52 | one pass of the SHREC loop, characterised by `ShrecOtherLinesIgnored`, `ShrecCategoryIsLastHeading` and `ShrecKeyCategory` |
| `MeshCategories.ShrecFold` | src/grasp_selection/feature_vectors/mesh_database.py:44-54 | the whole SHREC loop, characterised by `ShrecKeyCategory`, `ShrecKeysInFileOrder` and `ShrecKeysMatchDict`, and matched by the loop in `ReadShrecIndex` |
| `MeshCategories.ShrecIndex` | src/grasp_selection/feature_vectors/mesh_database.py:40-42 | a SHREC file fails exactly when it has fewer than three lines |
| `MeshCategories.ShrecHeaderIgnored` | src/grasp_selection/feature_vectors/mesh_database.py:41-42 | the three header lines never contribute keys or categories |
| `MeshCategories.ShrecCategoryIsLastHeading` | src/grasp_selection/feature_vectors/mesh_database.py:44-48 | the current category is the first token of the last 3-token line, or empty when there is none |
| `MeshCategories.ShrecKeyCategory` | src/grasp_selection/feature_vectors/mesh_database.py:44-51 | a 1-token line `t` whose token is not repeated later maps `"M" + t` to the category of the last 3-token line before it, or empty |
| `MeshCategories.ShrecOtherLinesIgnored` | src/grasp_selection/feature_vectors/mesh_database.py:45-52 | a line with neither 1 nor 3 tokens changes nothing wherever it stands |
| `MeshCategories.ShrecKeysInFileOrder` | src/grasp_selection/feature_vectors/mesh_database.py:49-52 | the key list is the added keys in file order, repeats included |
| `MeshCategories.ShrecKeysMatchDict` | src/grasp_selection/feature_vectors/mesh_database.py:49-54 | a key is in the key list exactly when it is in the dictionary |
| `MeshCategories.ReadShrecIndex` | src/grasp_selection/feature_vectors/mesh_database.py:37-54 | the line-by-line reading with a current category gives the SHREC fold |
| `MeshCategories.ParseIndex` | src/grasp_selection/feature_vectors/mesh_database.py:19-35 | the index each database class reads, `Cat50Dict` or `ShrecIndex`; `CreateCategories` and `Open` are stated against it |
| `MeshCategories.MeshDatabase.constructor` | src/grasp_selection/feature_vectors/mesh_database.py:3-17 | an empty database of the given format, before its index is read; it satisfies the key-list invariant |
| `MeshCategories.MeshDatabase.CreateCategories` | src/grasp_selection/feature_vectors/mesh_database.py:23-54 | on success the database holds the parsed index; on an error it keeps its old contents; the key-list invariant is kept |
| `MeshCategories.MeshDatabase.Open` | src/grasp_selection/feature_vectors/mesh_database.py:19-35 | constructing a database from an index file yields a fresh database holding the parsed index, or the parse error |
| `MeshCategories.MeshDatabase.ObjectCategoryForKey` | src/grasp_selection/feature_vectors/mesh_database.py:4-9 | the category stored for a known key, `None` for an unknown one |
| `MeshCategories.MeshDatabase.ObjectKeys` | src/grasp_selection/feature_vectors/mesh_database.py:11-13 | exactly the keys for which the category lookup succeeds |
| `MeshCategories.MeshDatabase.ObjectDict` | src/grasp_selection/feature_vectors/mesh_database.py:15-17 | a dictionary whose keys are the object keys and whose every entry agrees with the category lookup |
| `MeshCategories.MeshDatabase.SortedKeys` | src/grasp_selection/feature_vectors/mesh_database.py:56-57 | every key in a SHREC database's ordered key list has a category |

## Left out

- Loading the Gittins table with `scipy.io.loadmat`: the table is given to the constructor and must be non-empty and rectangular, as a 2-D matrix file always is.
- The Thompson policy's `stop` flag and its `IPython.embed()` debug hook: they do not affect the result.
- The distribution of `np.random.choice`: only which indices can be chosen is modelled, not that each is equally likely.
- The model's internals (`sample`, `max_prediction`, the posterior update): their outputs are given values. `max_prediction()`'s mean and variance are unused by the policy and not modelled.
- Floating point: samples, table entries and counts are reals, so NaN (which would empty the tie set) does not arise.
- `GittinsChooseNext` and `ChooseNext`: they require counts in `[0, 2^64)` (outside it NumPy's cast is undefined) and one beta per alpha. NumPy broadcasting of length-1 count arrays is not modelled.
- Duck typing: an object that is not a `DiscreteModel` is assumed to lack `num_vars`, `sample` and `max_prediction`.
- File opening and whitespace splitting in the mesh readers: the input is the sequence of token lists.
- `ObjectDict`: `object_dict()` hands out the database's own dictionary, so a caller that mutates it changes the database; the model returns a map value and does not capture that aliasing.
- `object_keys()` returns a list in Python 2, in dictionary order; the model returns the key set.
- A Cat50 database has no `sorted_keys_` attribute; the model keeps an empty list there, and `SortedKeys` requires a SHREC database.
- Before `create_categories` runs, the Python object has no `object_dict_`. The model's constructor starts from an empty dictionary, and only `Open` hands a database to callers.
- The experiment driver, the Maya rendering script, the robot stub and the normal-projection script are not part of this model.
