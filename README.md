# hypertunity `Domain` in Dafny

A model of hypertunity's `Domain`: a nested, string-keyed description of a search space. Each
leaf is either a continuous range `[low, high]` or a finite set of literals. The behaviour
modelled is the behaviour the `Domain` test suite (`hypertunity/tests/test_domain.py`) fixes:

- construction and validation from a raw nested mapping;
- equality;
- `flatten` and its inverse `from_list`;
- the disjoint union `+`;
- `as_dict`, `serialise` and `deserialise`;
- enumeration of a fully discrete domain;
- the validity of a random sample;
- `split_by_type`.

Modules, one file each:

- `errors.dfy` (`Errors`): the error kinds `DomainSpecificationError`, `DomainNotIterableError` and
  `ValueError`, plus `Option` and `Result`.
- `domain.dfy` (`Domains`): the data model. It holds literals, leaf specs, the `Domain` tree
  (a cons list of `(key, node)` entries), `Flatten`, path lookup (`Get`, `LeafAt`), validity, and
  the prefix relation on paths.
- `assembly.dfy` (`Assembly`): `from_list` as a fold of single-path insertions, and its laws.
- `algebra.dfy` (`Algebra`): `==` as equality of the (path, leaf) entries, and `+` as `from_list`
  of both flattenings, which fails with `ValueError` on a shared path.
- `validation.dfy` (`Validation`): the raw Python value (`Raw`, `RawDict`), the constructor's
  validation, `as_dict`, `serialise` and `deserialise`.
- `enumeration.dfy` (`Enumeration`): `Sample`, `__iter__` as the cartesian product, and
  `sample()` with its random source made a parameter.
- `classification.dfy` (`Classification`): `split_by_type`, and Python's `sum` over domains.
- `scenarios.dfy` (`Scenarios`): the test suite's own example domains for `test_valid`,
  `test_flatten`, `test_addition`, `test_as_dict`, `test_from_list`, `test_iter` and
  `test_split_by_type`, with the result each test expects. `test_eq`, `test_serialisation` and
  `test_sampling` are covered only by the general lemmas.

## Model

| member | source | states |
|---|---|---|
| Validation.ValidateAccepts | hypertunity/tests/test_domain.py:11-20 | The constructor accepts a mapping exactly when every key, at every depth, is a string and every non-mapping value is a non-empty set or a two-element sequence of numbers `[low, high]` with `low <= high`. Anything else is rejected. |
| Validation.ValidateErrKind | hypertunity/tests/test_domain.py:11-16 | Every mapping the constructor rejects, at any depth, is rejected with `DomainSpecificationError`. |
| Validation.ConstructErrKind | hypertunity/tests/test_domain.py:11-16 | `Domain(x)` on any value it does not accept, a non-mapping included, raises `DomainSpecificationError`. |
| Scenarios.RejectedSpecifications | hypertunity/tests/test_domain.py:11-16 | A non-string key, a four-element tuple and a callable leaf are each rejected with `DomainSpecificationError`. |
| Scenarios.AcceptedSpecification | hypertunity/tests/test_domain.py:20 | `{"a": {"b": {0, 1}}, "c": [0, 0.1]}` is accepted, giving a set leaf under `a.b` and a range leaf under `c`. |
| Algebra.EqualIsSameLeaves | hypertunity/tests/test_domain.py:24-27 | Two domains are equal exactly when they have the same leaf at every path, a condition that does not mention key order. |
| Algebra.EqualIgnoresKeyOrder | hypertunity/tests/test_domain.py:24-27 | Swapping two adjacent keys gives an equal domain. |
| Algebra.EqualUnderKey | hypertunity/tests/test_domain.py:24-27 | Replacing a sub-domain by an equal one gives an equal domain, so with `EqualIgnoresKeyOrder` a swap of adjacent keys at any depth keeps equality. |
| Algebra.EqualInRest | hypertunity/tests/test_domain.py:24-27 | Replacing the entries after a key by equal ones gives an equal domain, so a swap further down a key list keeps equality. |
| Validation.RawKeyOrder | hypertunity/tests/test_domain.py:24-27 | Two mappings that differ only in the order of their first two keys are both accepted or both rejected, and if accepted they build equal domains. |
| Validation.RawSameInRest | hypertunity/tests/test_domain.py:24-27 | Mappings with the same first entry whose remaining entries build the same domain build the same domain, so with `RawKeyOrder` a swap of adjacent keys at any position keeps the built domains equal. |
| Validation.RawSameUnderKey | hypertunity/tests/test_domain.py:24-27 | Replacing a nested mapping by one that builds the same domain builds the same domain, so a swap of adjacent keys inside a nested mapping keeps the built domains equal. |
| Domains.FlattenIsLeafAt | hypertunity/tests/test_domain.py:30-32 | `(p, s)` is an entry of `flatten` exactly when the leaf at the full key path `p` is `s`. |
| Domains.FlattenPrefixFree | hypertunity/tests/test_domain.py:30-32 | No flattened path is a prefix of, or equal to, a different flattened path. |
| Domains.FlattenHeads | hypertunity/tests/test_domain.py:30-32 | Every flattened path is non-empty and starts with a top-level key. |
| Scenarios.FlattenExample | hypertunity/tests/test_domain.py:30-32 | `flatten` yields `[(("a","b"), [0,1]), (("c",), [0,0.1])]`, depth first and in key order. |
| Assembly.FromListSucceeds | hypertunity/tests/test_domain.py:66-70 | `from_list` succeeds exactly when every path is non-empty, every leaf is well formed, and no path is a prefix of, or equal to, another. |
| Assembly.FromListEntries | hypertunity/tests/test_domain.py:66-70 | The built domain is valid and holds exactly the listed entries: the leaf at each listed path is the listed leaf, under merged shared prefixes. |
| Assembly.FromListFlatten | hypertunity/tests/test_domain.py:66-71 | `from_list(flatten(d))` gives back `d` itself, except that sub-domains with no leaf are dropped. Flattening that result gives back `flatten(d)` in the same order. |
| Assembly.FromListErrKind | hypertunity/tests/test_domain.py:66-70 | Every failure of `from_list` is a `DomainSpecificationError`. |
| Assembly.InsertLeafAt | hypertunity/tests/test_domain.py:66-70 | Inserting a leaf at `p` sets the leaf at `p` and leaves the leaf at every other path unchanged. |
| Assembly.InsertConflict | hypertunity/tests/test_domain.py:66-70 | A failed insertion of a non-empty path into a domain without leafless sub-domains names a leaf already present whose path is a prefix of, or equal to, the new path, or the other way round. |
| Scenarios.FromListExample | hypertunity/tests/test_domain.py:66-71 | The test's four entries build exactly `domain_true`, and `flatten(domain_true)` is the input list in the same order. |
| Algebra.AddSucceeds | hypertunity/tests/test_domain.py:35-42 | On valid operands, `d1 + d2` succeeds exactly when no leaf path of one is a prefix of, or equal to, a leaf path of the other. |
| Algebra.AddErrorKind | hypertunity/tests/test_domain.py:41-42 | A failing sum raises `ValueError` exactly when the operands share a leaf path. Otherwise it raises `DomainSpecificationError`. |
| Algebra.AddEntries | hypertunity/tests/test_domain.py:35-40 | A successful sum is valid and holds exactly the leaves of both operands. |
| Algebra.AddSelfFails | hypertunity/tests/test_domain.py:41-42 | `d + d` raises `ValueError` whenever `d` has a leaf. |
| Algebra.AddEmptyLeft | hypertunity/tests/test_domain.py:105 | `Domain({}) + d` is `d` with its leafless sub-domains dropped. |
| Algebra.AddCommutes | hypertunity/tests/test_domain.py:35-40 | If `a + b` succeeds then so does `b + a`, and the two are equal. |
| Algebra.AddAssociates | hypertunity/tests/test_domain.py:40 | If `(a + b) + c` succeeds then so does `a + (b + c)`, and the two are equal. |
| Scenarios.AdditionExample | hypertunity/tests/test_domain.py:35-42 | `domain_1 + domain_2 + domain_3 == domain_all`, and `domain_1 + domain_1` raises `ValueError`. |
| Validation.AsDictOfValidate | hypertunity/tests/test_domain.py:52-55 | `as_dict(Domain(m)) == m`. The domain's keys are the mapping's string keys, and it is valid when the mapping's keys are distinct. |
| Validation.ValidateOfAsDict | hypertunity/tests/test_domain.py:52-55 | `Domain(d.as_dict()) == d` for every valid `d`. |
| Scenarios.AsDictExample | hypertunity/tests/test_domain.py:52-55 | `as_dict` of `Domain({"a": {"b": [2, 3]}, "c": [0, 0.1]})` is that mapping. |
| Validation.SerialiseRoundTrip | hypertunity/tests/test_domain.py:45-49 | `deserialise(serialise(d)) == d` for every valid `d`. |
| Enumeration.HasRangeIffRangeLeaf | hypertunity/tests/test_domain.py:75-76 | A domain is not iterable exactly when one of its flattened leaves is a range. |
| Enumeration.ProductIsConforming | hypertunity/tests/test_domain.py:77-92 | A sample is produced by iteration exactly when it mirrors the domain's nesting and holds a member of each leaf set. |
| Enumeration.ProductSize | hypertunity/tests/test_domain.py:77-92 | Iteration yields as many distinct samples as the product of the leaf-set sizes. |
| Scenarios.IterateRangeFails | hypertunity/tests/test_domain.py:75-76 | Iterating the domain with the range `c: [0, 0.1]` raises `DomainNotIterableError`. |
| Scenarios.IterateDiscreteExample | hypertunity/tests/test_domain.py:77-92 | The discrete test domain yields 3 · 2 · 1 · 2 = 12 samples, each conforming to it. |
| Enumeration.ConformsAt | hypertunity/tests/test_domain.py:95-99 | A conforming sample holds, at every leaf path, a value that the leaf admits: a member of the set, or a number in `[low, high]` for a range. |
| Enumeration.DrawConforms | hypertunity/tests/test_domain.py:95-99 | A draw whose value for each leaf path is admitted by that leaf gives a conforming sample. |
| Enumeration.DrawAt | hypertunity/tests/test_domain.py:97-99 | The drawn sample holds, at each leaf path, the value drawn for that path. |
| Enumeration.SampleExists | hypertunity/tests/test_domain.py:95-99 | Every valid domain has a conforming sample. |
| Classification.SelectFlatten | hypertunity/tests/test_domain.py:102-108 | Each part of `split_by_type` flattens to exactly the original entries of its kind, in their original order. |
| Classification.SelectEntries | hypertunity/tests/test_domain.py:102-108 | Each part is a valid domain with no leafless sub-domain, holding exactly the leaves of its kind at their original paths. |
| Classification.SplitSumsBack | hypertunity/tests/test_domain.py:105 | `sum(d.split_by_type(), Domain({}))` succeeds and equals `d` for every valid `d`. |
| Scenarios.SplitExample | hypertunity/tests/test_domain.py:102-108 | For the test domain the parts are `{"y": {-3, 2, 5}}`, `{"z": {"small", 1, 0.1}}` and `{"x": [1, 2]}`, and their sum equals the domain. |

## Left out

- `sample()`'s random draw. The random source is the parameter `pick` of `Enumeration.Draw`. Uniformity and floating-point sampling are not modelled, only the validity of the drawn values.
- Construction from text through Python's `ast.literal_eval` (test lines 17-21). `serialise`/`deserialise` are stated over the literal mapping rather than its text, and the text-only `ValueError` is not modelled.
- The `TypeError` at test lines 9-10. Python raises it while building an unhashable set literal, before `Domain` runs.
- `as_namedtuple` (test lines 58-63). It builds Python record types at run time. It would carry the leaves unchanged, as `as_dict` does.
- Python's numeric equalities (`1 == 1.0 == True`), and `bool` as a subclass of `int`. The literals `Int`, `Real`, `Str` and `Bool` are always distinct. As a result `True` does not make a set discrete.
- Lists and tuples are one raw form (`RSeq`), so a two-element tuple of numbers is accepted as a range, like a list.
- The classification of a set of reals only. The model places every set that is not all integers in the categorical part, including a set of reals only.
- An empty set leaf is rejected, and a range needs numeric bounds with `low <= high`. The tests exercise neither case.
- `from_list` also rejects an empty path and a path given twice, as it rejects a leaf placed where a sub-domain is, or the other way round.
- Duplicate keys in a raw mapping cannot occur in Python. They appear only as the hypothesis `RawDistinct` of the validity clause of `Validation.AsDictOfValidate`, not as a precondition of the constructor.
- Equality of `Sample` values is structural (key order counts). The test compares sets of samples built in the same key order.
- A sub-domain with no leaf (`{"a": {}, "b": {1}}`) is kept by `Enumeration.Product` and `Enumeration.Draw` as an empty nested sample under its key. `from_list`, `+` and `split_by_type` drop such sub-domains instead, and `==` ignores them: equality compares paths to leaves, so `{"a": {}}` equals `{}` here, where Python's dict comparison would not. `Algebra.AddEmptyLeft` and `Classification.SplitSumsBack` rely on this. The tests do not fix which the original does for samples.
- The order in which `__iter__` yields samples, and its lazy generation. `Enumeration.Iterate` returns the set of samples.
- Floating point. Python float literals such as `0.1` are exact Dafny reals, so rounding is not modelled.
- Validation.AsDictOfValidate: validity of the built domain is stated only under distinct raw keys, since a Python mapping never has duplicates.
