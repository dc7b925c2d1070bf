# Feature engineering and dataset splitting for the Yelp influence analysis

This project models, in Dafny, the helpers that turn a list of user
dictionaries (attribute name → number) into a balanced, normalised,
vectorised and split dataset for a binary classifier
(`analysis/analysis_utilities.py`), and the helper that picks the node of
highest degree in the friendship graph (`utilities.py`).

- A user dictionary is an object, `Users.User`, whose field `attrs:
  map<string, real>` the in-place helpers reassign; a list of users is a
  `seq<User>` of references, so the same user may occur twice and the
  sampler's result aliases the input users.
- Python exceptions are values: `Wrappers.Error` is `KeyError(key)`,
  `IndexError` or `ZeroDivisionError`. Helpers that return nothing give an
  `Outcome`, helpers that return something give a `Result`. A helper that
  raises part-way leaves the earlier users rewritten, as Python does, and the
  contracts say which users those are.
- Numbers are exact `real`s. `int(bool(v))` is 1 or 0. A label is compared
  with 1 and 0.
- `random.sample` takes an injected random stream `rand: nat -> nat`. Each
  pick removes the element at `rand(step) % |remaining pool|` from the pool.
  The stream decides which positions are drawn; the model states no
  distribution over draws, and every property is proved for all streams.
- `partition_data_vectors` keeps `fraction_for_training` as a `real`.
  `int(fraction * N)` is truncation toward zero. Python slice bounds are
  modelled too (negative bounds count from the end, out-of-range bounds are
  clamped), so `labels[-0:]` is the whole list.
- `normalize_users` keeps its two passes. The first pass folds each user's
  values into running minimum and maximum maps; a key is absent from them
  until its first value, where the source starts from ±infinity. The second
  pass rewrites each value as `(v - min) / (max - min)`. Python 2's
  unspecified dict order is a nondeterministic choice (`:|`) of the next key.
- `highest_degree_node_in_graph` takes the sequence of `(node, degree)`
  pairs that `degree_iter` yields.

Some behaviour follows the code where a tidier design would differ:
- labels other than 0 and 1 are dropped silently, not rejected;
- the training fraction is not range-checked;
- a constant attribute raises `ZeroDivisionError` part-way through rewriting
  the first user.

Ten one-column vectors labelled `[0, 0, 0, 1, 0, 1, 0, 0, 1, 1]` and split at
0.7 keep the last three as the test set and `[[9], [10]]` as its positive part
(`Partitioner.PartitionTenAtSevenTenths`).

Files: `wrappers.dfy` (error values), `users.dfy` (the user object),
`attribute_transform.dfy`, `sampler.dfy`, `normalizer.dfy`, `vectorizer.dfy`,
`partitioner.dfy` (one module per component of `analysis_utilities.py`), and
`graph_utilities.dfy`.

## Model

| member | source | states |
|---|---|---|
| `AttributeTransform.Binarized` | analysis/analysis_utilities.py:14 | the binarized dictionary has the same keys, `attribute` is 1 exactly when its old value was non-zero and 0 exactly when it was zero, and every other entry is unchanged |
| `AttributeTransform.BinarizedIdempotent` | analysis/analysis_utilities.py:7-14 | binarizing twice equals binarizing once |
| `AttributeTransform.FirstMissing` | analysis/analysis_utilities.py:14 | the index where the comprehension raises KeyError: every earlier dictionary has the key and that one does not (the length when all have it) |
| `AttributeTransform.BinarizeAttribute` | analysis/analysis_utilities.py:7-14 | every user up to the first one lacking the key is binarized, aliased occurrences included; that user raises KeyError(attribute) and later users are untouched; Pass exactly when all users have the key |
| `AttributeTransform.Relabeled` | analysis/analysis_utilities.py:23 | after `user['label'] = user.pop(attribute)` the keys are the old keys minus `attribute` plus `label`, `label` holds the old value of `attribute`, and every other entry is unchanged |
| `AttributeTransform.RelabeledLabelIsNoOp` | analysis/analysis_utilities.py:23 | designating `label` itself leaves the dictionary unchanged |
| `AttributeTransform.RelabelStop` | analysis/analysis_utilities.py:22-23 | the first position whose pop raises KeyError: the user lacks the attribute, or it was already relabelled at an earlier position and the attribute is not `label` |
| `AttributeTransform.DesignateAttributeAsLabel` | analysis/analysis_utilities.py:17-23 | users before the failing position are relabelled and stay so, later ones are untouched; KeyError(attribute) exactly when some position fails |
| `AttributeTransform.RemoveAttribute` | analysis/analysis_utilities.py:40-42 | no user keeps the attribute, its absence is not an error, and every other entry is unchanged; a second call therefore changes nothing |
| `Sampler.WithLabel` | analysis/analysis_utilities.py:31-32 | the class of users with a given label has as many users as carry that label, and is a sub-multiset of the input (its order is stated by the two lemmas below) |
| `Sampler.WithLabelConcat` | analysis/analysis_utilities.py:31-32 | filtering a concatenation gives the filtered first part followed by the filtered second part, so each class keeps input order |
| `Sampler.WithLabelSingleton` | analysis/analysis_utilities.py:31-32 | a single user is kept exactly when its label equals the value |
| `Sampler.WithLabelMembers` | analysis/analysis_utilities.py:31-32 | every member of a class is an input user carrying that label |
| `Sampler.ClassesDisjoint` | analysis/analysis_utilities.py:31-32 | the positives and negatives together use each input position at most once |
| `Sampler.CountConcat` | analysis/analysis_utilities.py:35 | counting a label over a concatenation adds the counts of the two parts |
| `Sampler.RandomSample` | analysis/analysis_utilities.py:35 | `random.sample(pool, k)` returns `k` elements and uses each pool position at most once |
| `Sampler.StratifiedBooleanSample` | analysis/analysis_utilities.py:26-37 | KeyError(label_name) exactly when some user has no label |
| `Sampler.StratifiedSampleBalanced` | analysis/analysis_utilities.py:31-37 | with p positives and n negatives the sample holds exactly min(p, n) users labelled 1 and min(p, n) labelled 0, so 2·min(p, n) users (none when a class is empty), and no user with another label |
| `Sampler.StratifiedSampleProvenance` | analysis/analysis_utilities.py:31-37 | the sample is a sub-multiset of the input; when p < n it starts with all positives in input order, otherwise (ties included) it ends with all negatives in input order |
| `Vectorizer.Schema` | analysis/analysis_utilities.py:58 | as a set, the vector columns are the attributes other than the label, and there are no more of them than attributes (their order is stated by the three lemmas below) |
| `Vectorizer.SchemaConcat` | analysis/analysis_utilities.py:51-58 | the columns of a concatenation of attribute lists are the columns of the first part followed by those of the second |
| `Vectorizer.SchemaNoLabel` | analysis/analysis_utilities.py:51-58 | an attribute list without the label gives the columns in the given order, repetitions included |
| `Vectorizer.SchemaDropsLabel` | analysis/analysis_utilities.py:51-58 | the label is dropped wherever it occurs, and the columns around it keep their order |
| `Vectorizer.UserVector` | analysis/analysis_utilities.py:58 | a user's vector has one entry per schema column |
| `Vectorizer.UserVectorAligned` | analysis/analysis_utilities.py:58 | the comprehension's vector has one entry per schema column, and entry j is the user's value of schema attribute j |
| `Vectorizer.FirstAbsent` | analysis/analysis_utilities.py:58-59 | the first key in reading order that the user lacks (the KeyError raised), or none exactly when the user has every key |
| `Vectorizer.VectorizeUsers` | analysis/analysis_utilities.py:45-61 | on success `len(X) == len(y) == len(users)` in input order, `X[i][j]` is user i's value of schema attribute j and `y[i]` its label; otherwise the first user missing a key raises KeyError for the first key it misses |
| `Partitioner.Truncate` | analysis/analysis_utilities.py:74 | `int(x)` rounds toward zero: the result is within 1 of `x`, on the zero side |
| `Partitioner.TrainingSize` | analysis/analysis_utilities.py:74 | for a non-negative fraction, T is the whole part of fraction·N: T ≤ fraction·N < T + 1 |
| `Partitioner.TrainingSizeInRange` | analysis/analysis_utilities.py:74 | a fraction in [0, 1] gives a training size between 0 and N |
| `Partitioner.SliceBound` | analysis/analysis_utilities.py:77-80 | a Python slice bound lies in [0, N], is itself when in range, counts from the end when negative, and is clamped to N above the range and to 0 below it |
| `Partitioner.Slice` | analysis/analysis_utilities.py:77-78 | `s[lo:hi]` is no longer than `s`, is the usual subsequence for 0 ≤ lo ≤ hi ≤ N, runs to the end of `s` when hi > N, and is empty when 0 ≤ hi ≤ lo |
| `Partitioner.SliceFrom` | analysis/analysis_utilities.py:79-80 | `s[lo:]` is a suffix of `s`; `s[0:]` is the whole list, `s[lo:]` drops the first lo entries for 0 ≤ lo ≤ N, and a negative `lo` keeps the last min(-lo, N) entries |
| `Partitioner.PositivePositions` | analysis/analysis_utilities.py:81 | the increasing list of exactly the test positions labelled 1 |
| `Partitioner.SelectPositive` | analysis/analysis_utilities.py:81 | the positive test set is no longer than the test set and holds only test vectors |
| `Partitioner.SelectPositiveIsSubsequence` | analysis/analysis_utilities.py:81 | the positive test set is the in-order subsequence of test vectors whose label is 1 |
| `Partitioner.PartitionDataVectors` | analysis/analysis_utilities.py:64-84 | the only failure is IndexError; for 0 ≤ T ≤ N it is raised exactly when there are fewer labels than the test set needs: N - T when T < N, and N when T == N (the slice `[-0:]` takes the whole list); the positive labels are all 1 and as many as the positive vectors, which are no more than the test vectors |
| `Partitioner.PartitionLaws` | analysis/analysis_utilities.py:73-84 | for a fraction in [0, 1] and one label per vector: training is the first T entries; if T < N the test set is the rest, disjoint from training and covering the list; if T == N it is the whole list; the positive set is the subsequence labelled 1 with labels all 1 |
| `Partitioner.PartitionTenAtSevenTenths` | analysis/analysis_utilities.py:73-84 | ten vectors split at 0.7 train on the first seven, test on the last three, and keep `[[9], [10]]` as the positive test set |
| `Normalizer.ColumnHas` | analysis/analysis_utilities.py:100-104 | every user's value of an attribute is among the values the first pass folds for it |
| `Normalizer.SeqMinBounds` | analysis/analysis_utilities.py:104 | the running `min` ends at a value of the column that no value is below |
| `Normalizer.SeqMaxBounds` | analysis/analysis_utilities.py:103 | the running `max` ends at a value of the column that no value is above |
| `Normalizer.SeqExtremesSnoc` | analysis/analysis_utilities.py:103-104 | folding one more value moves the extremes as `max` and `min` do |
| `Normalizer.AccumulateExtremes` | analysis/analysis_utilities.py:101-104 | one user's pass-one items turn the extremes of the users before it into the extremes including it, or raise KeyError for a non-excluded key the first user lacks |
| `Normalizer.ExcludedSet` | analysis/analysis_utilities.py:95 | an attribute is excluded exactly when it occurs in `excluded_attributes` |
| `Normalizer.FindExtremes` | analysis/analysis_utilities.py:98-104 | the first pass succeeds exactly when every user's non-excluded keys are keys of the first user, then yields each attribute's minimum and maximum over all users; otherwise KeyError for a key of the first non-conforming user |
| `Normalizer.NormalizedAttrs` | analysis/analysis_utilities.py:107-110 | a normalised user keeps its keys and its excluded values |
| `Normalizer.Scale` | analysis/analysis_utilities.py:110 | the scaled value times the range (max - min) is the value's offset above the minimum |
| `Normalizer.ScaleBounds` | analysis/analysis_utilities.py:110 | `(v - min) / (max - min)` of a value in range lies in [0, 1], is 0 exactly at the minimum and 1 exactly at the maximum |
| `Normalizer.ScaleMonotone` | analysis/analysis_utilities.py:110 | scaling keeps the order of values, both ways |
| `Normalizer.InColumnRange` | analysis/analysis_utilities.py:98-104 | every user's value lies between its attribute's minimum and maximum over all users |
| `Normalizer.NormalizedInRange` | analysis/analysis_utilities.py:107-110 | every normalised value lies in [0, 1]; it is 0 exactly for users at the attribute's minimum and 1 exactly for those at its maximum |
| `Normalizer.NormalizedPreservesOrder` | analysis/analysis_utilities.py:107-110 | two users' values of an attribute compare the same way before and after normalisation |
| `Normalizer.AllNormalizable` | analysis/analysis_utilities.py:98-110 | when every user conforms to the first user's keys and none of those is constant, every user can be normalised |
| `Normalizer.RewriteUser` | analysis/analysis_utilities.py:108-110 | one user's pass-two items: succeeds exactly when none of its non-excluded attributes is constant, and then equals NormalizedAttrs; otherwise each value is either unchanged or already normalised |
| `Normalizer.NormalizeUsers` | analysis/analysis_utilities.py:87-112 | an empty list raises IndexError; a non-conforming user raises KeyError with nothing written; a constant attribute raises ZeroDivisionError with only the first user partly rewritten; otherwise every user becomes NormalizedAttrs of its old values, using extremes over all old values, and the same list is returned |
| `GraphUtilities.HighestDegreeNodeInGraph` | utilities.py:10-21 | None exactly when no node has positive degree, an empty graph included; otherwise an iterated node of positive degree no lower than any other, the earliest such in iteration order |

## Left out

- `show_histogram` (analysis/analysis_utilities.py:115-125) draws with matplotlib, which is not modelled.
- `data/data_interface.py` is not part of this model: it reads JSON files, builds networkx graphs and writes files, and `read_users` is an unimplemented stub.
- `read_graph_from_yelp_JSON_file` and `output_graph_to_D3_JSON_file` (utilities.py:24-54) read and write files through networkx, so they are not modelled. The second one also refers to an unbound `graph`.
- Floating point is not modelled. Values are exact reals, the ±infinity sentinels are absent map keys, and `int(fraction * N)` is computed exactly.
- Values are numbers only. The truthiness of strings or `None` under `int(bool(...))` is not modelled.
- StratifiedBooleanSample: the distribution of `random.sample` is not modelled, only the set of possible draws.
- StratifiedBooleanSample: assumes `random` is in scope. None of the files modelled here imports `random`; whether it is bound at run time depends on modules outside this model.
- NormalizeUsers: requires the users to be distinct objects. A user listed twice would be rewritten twice in the second pass, and that case is not modelled.
- NormalizeUsers: the key reported by KeyError is some offending key of the first offending user. Which one depends on dict iteration order, which is unspecified.
- HighestDegreeNodeInGraph: takes the `(node, degree)` sequence that `degree_iter` yields. The graph and its degree computation are not modelled.
- Default argument values (`label_name='label'`, `fraction_for_training=0.7`, `excluded_attributes=[]`) are explicit parameters.
