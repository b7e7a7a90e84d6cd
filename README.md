# json-diff-checker, modelled in Dafny

`json-diff-checker` compares two JSON documents and reports whether they are
structurally equal. Its one piece of logic is `recursiveCompare`
(`src/index.ts`, lines 21-97). It walks both trees in lockstep and returns a
boolean. Through `d`, it hands `logDifference` a diagnostic for each mismatch
it meets: a message, the path `root…`, and both subtrees.

The model has eight modules.

- `JsonValues` holds:
  - the value trees (`JsonNode`, lines 6-7);
  - `Object.keys` of objects and of arrays (arrays give `"0"`, `"1"`, …);
  - `Same`, the structural equality the comparator is meant to decide.
- `Comparator` holds `Compare`, `recursiveCompare` as a pure function. It returns an
  `Outcome`: the verdict (`true`, `false`, or a `TypeError`) and the
  diagnostics logged, in order. The
  right-hand operand may also be `undefined`, or a member inherited from
  `Object.prototype`. Both come from looking up a key the right-hand object
  does not own.
- `DiffChecker` is the imperative program:
  - `RecursiveCompare` and the loops of lines 39-65 and 86-94 as methods with
    early returns;
  - `DifferenceLog`, a class whose `Difference` method appends a record each
    time `d` is called while `LOG` is on.

  Each method is proved to return the verdict of `Compare` and to leave in
  the log exactly the trail of `Compare`.
- `Trail`, `ShortCircuit` and `Equality` prove what the comparison promises:
  - the shape of the trail;
  - where the walk stops;
  - that a match is equality.
- `FallThrough` proves that the fall-through of equal arrays described below
  never changes the verdict.
- `Scenarios` holds the six cases of `test()` (lines 99-120), with the exact
  diagnostic each one ends on, and the inputs behind the finding below.

Three behaviours of the code as written are kept, not repaired:

- Equal arrays fall out of the array branch (no `return` after line 65). They
  then go through the property walk of lines 77-96, where every element is
  compared a second time under the path `root.0`, `root.1`, …. The verdict
  stays that of the element loop (`FallThrough.ArrayVerdictIsItems`). Each key
  of that walk logs the records of its element again, now under `path.i`
  (`FallThrough.ArrayMemberStep`). With JavaScript's lookup, the second walk
  can thus log a missing-key notice a second time
  (`Scenarios.ArraysWalkedTwice`).
- A key missing from the right-hand object is reported (lines 87-89) but does
  not end the walk. The value is then compared with `undefined`:
  - an array fails the kind check;
  - a scalar fails strict equality;
  - an object makes `Object.keys(undefined)` (line 78) throw a `TypeError`.
- The message of line 70 is built before `d` is called, whatever `LOG` is.
  When strict equality fails between a scalar and an object that owns a
  `toString` key, the template literal cannot turn that object into a string:
  its `toString` is not callable, and `valueOf` returns the object itself. The
  comparison then throws a `TypeError` with nothing logged, at any depth
  (`Scenarios.ToStringAgainstScalar`).

The comparator can therefore throw in two ways, although it is sometimes
described as always returning a boolean.

The lookup `objectTwo[propName]` (line 91) is a parameter, `Lookup`:
- `PrototypeChain` is JavaScript's behaviour, and every scenario of the test
  suite is proved under it;
- `OwnProperties` is the corrected lookup of the finding below.

## Model

| member | source | states |
|---|---|---|
| JsonValues.Json | src/index.ts:6-7 | a `JsonNode`: `null`, a boolean, a number, a string, an array, or an object whose own members are listed in `Object.keys` order; it has no `ensures` (its equality is `Same`) |
| JsonValues.Keys | src/index.ts:77-78 | `Object.keys` of an array (`"0"`, `"1"`, …) or an object (member names in order); no `ensures` of its own: `NatToStringInjective` and `KeysDistinct` state that the names never repeat |
| JsonValues.Same | src/index.ts:21-97 | the structural equality `recursiveCompare` is meant to decide, defined on its own terms: arrays elementwise, objects key by key with equal values; no `ensures`: `SameSymmetric` and `SameKeys` state its properties, and `Equality.CompareDecidesSame` ties it to `Compare` |
| Comparator.Compare | src/index.ts:21-97 | `recursiveCompare`: verdict and trail, with the array checks, the fall-through of equal arrays and the key walk; no `ensures` of its own: its properties are stated by `Trail.TrailShape`, `ShortCircuit.ShapeMismatchRejected`, `Equality.CompareDecidesSame`, `FallThrough.ArrayVerdictIsItems`, and `DiffChecker.RecursiveCompare` is proved equal to it |
| Comparator.CompareRest | src/index.ts:68-96 | strict equality for scalars (a mismatch throws when its message must print an object owning `toString`), the throw of `Object.keys(undefined)`, the key count check, then the key walk; no `ensures`: stated by `Trail.RestTrailShape` and `ShortCircuit.ShapeMismatchRejected` |
| Comparator.CompareItems | src/index.ts:39-65 | the element loop from element `i` on; no `ensures`: stated by `ShortCircuit.ItemsStopAt` and `FallThrough.ItemsMatchAt` |
| Comparator.ItemStep | src/index.ts:40-61 | one element pair: recursion at `path[i]`, or strict equality with the mismatch logged at the arrays' path; no `ensures`: stated by `Scenarios.ElementMismatchAtArrayPath` and `Trail.ItemStepTrailShape` |
| Comparator.CompareMembers | src/index.ts:86-94 | the key loop from key `i` on; no `ensures`: stated by `ShortCircuit.MembersStopAt` and `Comparator.MembersMatchAt` |
| Comparator.MemberStep | src/index.ts:87-93 | one key: the missing-key notice, then the comparison at `path.key` against `objectTwo[key]`; no `ensures`: stated by `Trail.MemberStepTrailShape`, `Equality.MatchIsSameMemberStep` and `Scenarios.LoneMissingKey` |
| Comparator.Get | src/index.ts:90-91 | `objectTwo[key]`; no `ensures`: `Comparator.GetResolves` states what it yields |
| JsonValues.NatToStringInjective | src/index.ts:77-78 | two different indices never print the same, so `Object.keys` of an array lists distinct names |
| JsonValues.KeysDistinct | src/index.ts:77-78 | a well-formed node's `Object.keys` has no repeated name |
| JsonValues.SameKeys | src/index.ts:77-92 | equal objects (or arrays) own exactly the same keys |
| JsonValues.SameSymmetric | src/index.ts:21-97 | the equality the comparator decides does not depend on argument order |
| Comparator.Absent | src/index.ts:91 | a key the object does not own yields `undefined`, or, through the prototype chain only, an inherited member |
| Comparator.GetResolves | src/index.ts:90-91 | `objectTwo[key]` yields the value stored under an own key (for an object, the value of the member so named); any other key yields `undefined`, or an inherited member under `PrototypeChain` only |
| Comparator.MembersMatchAt | src/index.ts:86-94 | if the key loop matches from key `i` on, every key `j >= i` matched on its own |
| Trail.PrependFits | src/index.ts:87-93 | missing-key notices logged before a well-shaped outcome leave it well shaped |
| Trail.TrailShape | src/index.ts:21-97 | a `false` ends on exactly one deciding diagnostic, with only missing-key notices before it; `true` and a throw log only missing-key notices; a throw with nothing logged happens only for an object compared with `undefined`, or when one tree holds an object owning a `toString` key (the message of line 70) |
| Trail.AgainstUndefined | src/index.ts:24-78 | a value compared with `undefined`: an array gives "Object one is an array", a scalar gives "Objects don't match", an object throws with nothing logged |
| Trail.OwnTrail | src/index.ts:21-97 | with own-property lookup, a `true` logs nothing and any outcome logs at most two diagnostics |
| ShortCircuit.ShapeMismatchRejected | src/index.ts:24-84 | each shape check gives `false` with its own single diagnostic at the nodes' own path, before anything below is compared: only one side an array gives "Object one/two is an array", arrays of different lengths give the two lengths, unequal scalars give "Objects don't match" unless one side is an object owning `toString`, whose message throws with nothing logged; different key counts give both key lists |
| ShortCircuit.ItemsStopAt | src/index.ts:39-65 | from element `i` on, the first element pair that fails decides the loop's outcome |
| ShortCircuit.FirstItemDecides | src/index.ts:39-65 | between arrays of one length, the comparison ends with the outcome of the first failing element pair; later pairs are not visited and only missing-key notices (none with own lookup) precede it |
| ShortCircuit.MembersStopAt | src/index.ts:86-94 | from key `i` on, the first key whose comparison fails decides the loop's outcome |
| ShortCircuit.FirstMemberDecides | src/index.ts:86-94 | between objects with as many keys, the first failing key in `objectOne`'s key order decides; later keys are not visited |
| Equality.ArrayMembers | src/index.ts:77-92 | when equal arrays reach the property walk, it pairs the elements index by index |
| Equality.ObjectMembers | src/index.ts:86-92 | the property walk looks every key of `objectOne` up in `objectTwo` as equality does |
| Equality.SameMatches | src/index.ts:21-97 | equal trees give `true` and log nothing, under either lookup |
| Equality.SameMatchesMemberStep | src/index.ts:87-93 | a key both equal objects hold matches without a notice |
| Equality.MatchIsSame | src/index.ts:21-97 | with own-property lookup, `true` means the trees are equal |
| Equality.MatchIsSameMemberStep | src/index.ts:87-93 | with own-property lookup, a key that matched is owned by `objectTwo` with an equal value |
| Equality.CompareReflexive | src/index.ts:101-105 | a document compared with itself gives `true` and logs nothing |
| Equality.CompareDecidesSame | src/index.ts:21-97 | with own-property lookup, `true` exactly when the trees are equal |
| Equality.MatchSymmetric | src/index.ts:21-97 | with own-property lookup, swapping the documents does not change whether they match (the verdict itself can differ: see `Scenarios.OwnLookupAsymmetric`) |
| Equality.MatchHasSameKeys | src/index.ts:86-92 | with own-property lookup, a `true` means both objects own the same keys |
| FallThrough.VerdictPathFree | src/index.ts:21-97 | the path only labels diagnostics: the verdict of a comparison is the same under every path |
| FallThrough.ItemsMatchAt | src/index.ts:39-65 | if the element loop matches from element `i` on, every element `j >= i` matched on its own |
| FallThrough.ArrayKeyAt | src/index.ts:77-91 | the property `"i"` of an array is its `i`-th key and looks up element `i` |
| FallThrough.ArrayMemberStep | src/index.ts:86-92 | in the property walk over arrays of one length, key `i` has exactly the outcome of comparing element `i` with element `i` under `path.i`: no notice, and the element's records logged again at `path.i` |
| FallThrough.SecondWalkStep | src/index.ts:40-92 | an element pair that matched in the element loop (at `path[i]`) matches again as property `"i"` of the property walk (at `path.i`) |
| FallThrough.SecondWalkMatches | src/index.ts:65-94 | after the element loop matched, the property walk the arrays fall into matches too |
| FallThrough.ArrayVerdictIsItems | src/index.ts:39-96 | between arrays of one length, the verdict is that of the element loop: the fall-through after line 65 never turns a match into a failure |
| DiffChecker.DifferenceLog.constructor | src/index.ts:4 | a log starts empty, with the `LOG` flag it is given |
| DiffChecker.DifferenceLog.Difference | src/index.ts:22 | `d` appends its diagnostic when `LOG` is on and leaves the log unchanged when it is off |
| DiffChecker.RecursiveCompare | src/index.ts:21-97 | returns the verdict of `Compare` and appends to the log exactly its trail (when `LOG` is on) |
| DiffChecker.CompareElements | src/index.ts:39-65 | the element loop returns and logs what the element walk of `Compare` does |
| DiffChecker.CompareElement | src/index.ts:40-64 | one element pair: a recursive comparison at `path[i]`, or a scalar mismatch logged at the arrays' own path |
| DiffChecker.CompareScalarsAndKeys | src/index.ts:68-96 | strict equality for scalars with the throw of the line-70 message for an object owning `toString`, the throw of `Object.keys(undefined)`, the key count check, then the key loop, as in `Compare` |
| DiffChecker.CompareKeys | src/index.ts:86-96 | the key loop returns and logs what the key walk of `Compare` does |
| DiffChecker.CompareProperty | src/index.ts:87-93 | one key: the missing-key notice if `objectTwo` lacks it, then the comparison at `path.key` |
| DiffChecker.PropertyLogged | src/index.ts:87-92 | the records of one key are its notice followed by those of the child comparison |
| Scenarios.SharedKeyStep | src/index.ts:87-92 | a key both objects own at one position is compared with no notice |
| Scenarios.CompareAB | src/index.ts:86-93 | `{a, b}` against `{a, b}` compares `a` at `path.a`, then `b` at `path.b` only if `a` matched |
| Scenarios.BasicMatch | src/index.ts:101-102 | `{a:1,b:1}` against itself gives `true` with no diagnostics |
| Scenarios.NestedBasicMatch | src/index.ts:104-105 | `[{a:1,b:1}]` against itself gives `true` with no diagnostics |
| Scenarios.BasicMismatch | src/index.ts:107-108 | `{a:1,b:1}` against `{a:1,b:2}` gives `false` with one "Objects don't match" at `root.b` |
| Scenarios.BasicMismatchAt | src/index.ts:107-108 | the same at any path `p`, reported at `p.b` |
| Scenarios.BasicTypeMismatch | src/index.ts:110-111 | `1` against `"1"` under `a` gives `false` at `root.a` |
| Scenarios.CompareSingleton | src/index.ts:42-49 | a failing element pair of one-element arrays, either side an array or an object, decides with the outcome of its comparison at `path[0]` |
| Scenarios.NestedBasicMismatch | src/index.ts:113-114 | `[{a:1,b:1}]` against `[{a:1,b:2}]` gives `false` at `root[0].b` |
| Scenarios.NestingMismatch | src/index.ts:116-117 | `1` against `[1]` gives `false` with "Object two is an array" at `root[0].b` |
| Scenarios.ScalarKinds | src/index.ts:68-74 | `1 !== "1"`, `null !== false`, `null === null` |
| Scenarios.ElementMismatchAtArrayPath | src/index.ts:53-58 | `[1]` against `[2]` reports index 0, both scalars and both arrays at `root`, not at `root[0]` |
| Scenarios.LoneMissingKey | src/index.ts:86-93 | `{a: x}` against `{b: 1}` logs the missing key, then yields whatever comparing `x` with `undefined` yields |
| Scenarios.MissingKeyScalar | src/index.ts:86-92 | a missing key over a scalar: the notice, then "Objects don't match" at `root.a` against `undefined` |
| Scenarios.MissingKeyArray | src/index.ts:86-92 | a missing key over an array: the notice, then "Object one is an array" at `root.a` |
| Scenarios.MissingKeyObject | src/index.ts:77-92 | a missing key over an object: the notice, then the `TypeError` of `Object.keys(undefined)` |
| Scenarios.ToStringAgainstScalar | src/index.ts:68-71 | `{"toString":1}` against `1`, in either order and one level down under `a`, throws with nothing logged |
| Scenarios.InheritedKeyMatches | src/index.ts:91 | as written, `{"toString":{}}` against `{"x":{}}` gives `true` after logging the missing key, though the trees differ |
| Scenarios.InheritedKeyMatchesAt | src/index.ts:91 | the same at any path |
| Scenarios.ArraysWalkedTwice | src/index.ts:65-92 | as written, `[{"toString":{}}]` against `[{"x":{}}]` matches and logs the missing key twice: at `root[0]` in the element loop and at `root.0` in the property walk the equal arrays fall into |
| Scenarios.OwnLookupAsymmetric | src/index.ts:77-92 | even with own-property lookup, `{"a":{}}` against `{"b":1}` throws while the reverse order returns `false` |
| Scenarios.InheritedKeyReversed | src/index.ts:91 | as written, the same documents in the other order throw |
| Scenarios.InheritedKeyOwnLookup | src/index.ts:91 | with own-property lookup, the first order throws too instead of matching |

## Left out

- Command-line handling (lines 122-145): the argument count, the `.json` extension test, `statSync`/`readFileSync` and `JSON.parse` are file I/O and a foreign parser. The model starts from parsed trees. Duplicate keys, which `JSON.parse` resolves to the last one, appear as the `WellFormed` requirement that no object repeats a key.
- `logDifference` (lines 9-19): the console text and the `JSON.stringify(…, null, 4)` rendering are not modelled. A diagnostic keeps the message kind, the values it interpolates, the path and both subtrees.
- The `test()` runner's `console.assert` and its result array (lines 99-120 apart from the six comparisons), and the pass count printed at lines 147-154.
- Numbers are JSON values compared by `!==` only. They are kept as `real`, with no IEEE rounding, since `JSON.parse` never yields `NaN` and only equality is used.
- The global `LOG` (lines 4 and 100) is the `enabled` field, fixed when a `DifferenceLog` is made, not mutable global state.
- Line 63 is never reached: the test at lines 42-47 already takes every pair in which either side is not a scalar. `DiffChecker.CompareElement` has no branch for it.
- `recursiveCompare` is one function in the source. The model splits it into a method per loop and per loop body (`CompareElements`, `CompareElement`, `CompareScalarsAndKeys`, `CompareKeys`, `CompareProperty`), with the same branches in the same order.
- The inherited members are `Object.prototype`'s twelve standard names, listed in `OBJECT_PROTOTYPE_KEYS`. They are functions, or in the case of `__proto__` the prototype object itself, and none has enumerable own keys. Other host additions to `Object.prototype` are not modelled.
- The verdict is not symmetric in the order of the documents, even with own-property lookup: where a key is missing, the side whose value is an object throws and the other side returns `false` (`Scenarios.OwnLookupAsymmetric`). `Equality.MatchSymmetric` promises only that whether they match is symmetric.

## Findings

| source | as written | input that shows it | evidently intended | confidence | as-written member | corrected member |
|---|---|---|---|---|---|---|
| src/index.ts:91 | `objectTwo[propName]` also finds members inherited from `Object.prototype`. A key such as `toString` that `objectTwo` lacks yields a function with no own keys, and that function compares equal to `{}`. The walk goes on, and the verdict is `true` after the "Prop missing" notice. | `{"toString": {}}` against `{"x": {}}` gives `true`. The same documents in the other order throw. | Look up own properties only, so that `true` means the trees are equal (with the same key sets) and whether two documents match does not depend on their order | not executed; follows from JavaScript's property lookup | Scenarios.InheritedKeyMatches | Equality.CompareDecidesSame |
