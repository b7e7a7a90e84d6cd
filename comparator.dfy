/** `recursiveCompare` (src/index.ts) as a pure specification: the verdict it
    returns and the diagnostics `d` hands to `logDifference`, in order. */
module Comparator {
  import opened JsonValues

  /** What `objectTwo` can be: a JSON node, or, after a lookup of a key the
      right-hand object does not own, `undefined` or a member inherited from
      `Object.prototype`. Both of the latter are neither arrays nor scalars;
      `Object.keys` throws on `undefined` and returns no keys for the other. */
  datatype Operand = Node(node: Json) | Undefined | Inherited(name: string)

  /** How `objectTwo[propName]` resolves a key the object does not own.
      `PrototypeChain` is what JavaScript does; `OwnProperties` is the
      corrected lookup, which yields `undefined` for every such key. */
  datatype Lookup = PrototypeChain | OwnProperties

  /** The property names a plain JavaScript object inherits from `Object.prototype`. */
  const OBJECT_PROTOTYPE_KEYS: seq<string> := [
    "constructor", "hasOwnProperty", "isPrototypeOf", "propertyIsEnumerable",
    "toLocaleString", "toString", "valueOf", "__proto__",
    "__defineGetter__", "__defineSetter__", "__lookupGetter__", "__lookupSetter__"
  ]

  /** `key` is `OBJECT_PROTOTYPE_KEYS[i]` or a name after it. */
  predicate ListedFrom(key: string, i: nat)
    decreases |OBJECT_PROTOTYPE_KEYS| - i
  {
    i < |OBJECT_PROTOTYPE_KEYS| && (OBJECT_PROTOTYPE_KEYS[i] == key || ListedFrom(key, i + 1))
  }

  /** The message `d` is called with, without its text: the kind of mismatch and
      the values the message interpolates. */
  datatype Reason =
    | OneIsArray                                          // "Object one is an array, but object two is not."
    | TwoIsArray                                          // "Object two is an array, but object one is not."
    | LengthMismatch(lengthOne: nat, lengthTwo: nat)      // "arrays have mismatched lengths"
    | ItemMismatch(index: nat, itemOne: Json, itemTwo: Json) // "Objects at index i don't match"
    | ValueMismatch                                       // "Objects don't match"
    | PropertyCountMismatch(keysOne: seq<string>, keysTwo: seq<string>)
    | PropertyMissing(key: string, keysTwo: seq<string>)  // "Prop missing from objectTwo"

  /** One call of `logDifference`: the message, `pathToNode`, and both subtrees. */
  datatype Diagnostic = Diagnostic(reason: Reason, path: string, one: Json, two: Operand)

  /** `recursiveCompare` either returns a boolean or throws a `TypeError`:
      that of `Object.keys(undefined)` (line 78), or that of building the
      message of line 70 from an object that owns a `toString` key. */
  datatype Verdict = Returned(same: bool) | ThrewTypeError

  datatype Outcome = Outcome(verdict: Verdict, trail: seq<Diagnostic>)

  const MATCH := Returned(true)

  function Reject(reason: Reason, path: string, one: Json, two: Operand): Outcome {
    Outcome(Returned(false), [Diagnostic(reason, path, one, two)])
  }

  /** The outcome `o`, after the diagnostics `t` that were logged before it. */
  function Prepend(t: seq<Diagnostic>, o: Outcome): Outcome {
    Outcome(o.verdict, t + o.trail)
  }

  /** Two batches of records logged in turn are one batch. */
  lemma PrependPrepend(s: seq<Diagnostic>, t: seq<Diagnostic>, o: Outcome)
    ensures Prepend(s, Prepend(t, o)) == Prepend(s + t, o)
  {
    assert s + (t + o.trail) == (s + t) + o.trail;
  }

  predicate IsArray(two: Operand) {
    two.Node? && two.node.JArr?
  }

  predicate IsScalarOperand(two: Operand) {
    two.Node? && IsScalar(two.node)
  }

  /** `Object.keys(objectTwo)` when it does not throw. */
  function OperandKeys(two: Operand): seq<string> {
    match two
    case Node(j) => Keys(j)
    case _ => []
  }

  /** What `objectTwo[key]` yields when `key` is not an own property. */
  function Absent(key: string, lookup: Lookup): (r: Operand)
    ensures r.Undefined? || (lookup == PrototypeChain && r == Inherited(key))
  {
    if lookup == PrototypeChain && ListedFrom(key, 0) then Inherited(key) else Undefined
  }

  /** `j` is an object with an own member named `toString`. Its value is JSON
      data, never a function, and the inherited `valueOf` returns the object
      itself, so converting `j` to a string throws a `TypeError`. */
  predicate OwnsToString(j: Json) {
    j.JObj? && "toString" in MemberKeys(j.members)
  }

  /** The template literal of line 70 cannot be built: `${objectOne}` or
      `${objectTwo}` is an object that cannot be converted to a string. It is
      evaluated before `d` tests `LOG`, so it throws whether or not logging is on. */
  predicate MessageThrows(one: Json, two: Operand) {
    OwnsToString(one) || (two.Node? && OwnsToString(two.node))
  }

  /** `objectTwo[key]`. */
  function Get(two: Operand, key: string, lookup: Lookup): Operand {
    match two
    case Node(j) =>
      var i := IndexOf(Keys(j), key);
      if i < |Keys(j)| then Node(ValueAt(j, i)) else Absent(key, lookup)
    case _ => Undefined
  }

  /** An own key yields its own value; any other key yields `undefined`, or,
      through the prototype chain, an inherited member. */
  lemma GetResolves(two: Operand, key: string, lookup: Lookup)
    ensures key in OperandKeys(two) ==> Get(two, key, lookup) == Node(ValueAt(two.node, IndexOf(Keys(two.node), key)))
    ensures two.Node? && two.node.JObj? && key in MemberKeys(two.node.members) ==>
      Get(two, key, lookup) == Node(MemberValue(two.node.members, key))
    ensures key !in OperandKeys(two) ==> Get(two, key, lookup).Undefined? || Get(two, key, lookup) == Absent(key, lookup)
    ensures lookup == OwnProperties && key !in OperandKeys(two) ==> Get(two, key, lookup).Undefined?
  {
  }

  /** `recursiveCompare(objectOne, objectTwo, pathToNode)`, lines 21-97. */
  function Compare(one: Json, two: Operand, path: string, lookup: Lookup): Outcome
    decreases one, 3
  {
    if one.JArr? && !IsArray(two) then Reject(OneIsArray, path, one, two)
    else if IsArray(two) && !one.JArr? then Reject(TwoIsArray, path, one, two)
    else if one.JArr? then
      if |one.items| != |two.node.items| then
        Reject(LengthMismatch(|one.items|, |two.node.items|), path, one, two)
      else
        var items := CompareItems(one, two.node, 0, path, lookup);
        if items.verdict != MATCH then items
        // equal arrays do not return here: they go on to lines 68-96
        else Prepend(items.trail, CompareRest(one, two, path, lookup))
    else CompareRest(one, two, path, lookup)
  }

  /** Lines 68-96: the scalar check, then the property walk. */
  function CompareRest(one: Json, two: Operand, path: string, lookup: Lookup): Outcome
    decreases one, 2
  {
    if IsScalar(one) || IsScalarOperand(two) then
      if two != Node(one) then
        if MessageThrows(one, two) then Outcome(ThrewTypeError, [])
        else Reject(ValueMismatch, path, one, two)
      else Outcome(MATCH, [])
    else if two.Undefined? then Outcome(ThrewTypeError, [])
    else
      var keysOne, keysTwo := Keys(one), OperandKeys(two);
      if |keysOne| != |keysTwo| then Reject(PropertyCountMismatch(keysOne, keysTwo), path, one, two)
      else CompareMembers(one, two, 0, path, lookup)
  }

  /** The loop of lines 39-65 from index `i` on; `one` and `two` are arrays of one length. */
  function CompareItems(one: Json, two: Json, i: nat, path: string, lookup: Lookup): Outcome
    requires one.JArr? && two.JArr? && |one.items| == |two.items| && i <= |one.items|
    decreases one, 1, |one.items| - i
  {
    if i == |one.items| then Outcome(MATCH, [])
    else
      var step := ItemStep(one, two, i, path, lookup);
      if step.verdict != MATCH then step
      else Prepend(step.trail, CompareItems(one, two, i + 1, path, lookup))
  }

  /** One pass of that loop, lines 40-61: a pair with an array or an object in it
      is compared recursively at `path[i]`; two scalars are compared in place and
      a mismatch is reported at the arrays' own path. */
  function ItemStep(one: Json, two: Json, i: nat, path: string, lookup: Lookup): Outcome
    requires one.JArr? && two.JArr? && |one.items| == |two.items| && i < |one.items|
    decreases one, 0
  {
    var itemOne, itemTwo := one.items[i], two.items[i];
    if !IsScalar(itemOne) || !IsScalar(itemTwo) then
      Compare(itemOne, Node(itemTwo), path + "[" + NatToString(i) + "]", lookup)
    else if itemOne != itemTwo then
      Reject(ItemMismatch(i, itemOne, itemTwo), path, one, Node(two))
    else Outcome(MATCH, [])
  }

  /** The loop of lines 86-94 from the `i`-th key of `one` on. */
  function CompareMembers(one: Json, two: Operand, i: nat, path: string, lookup: Lookup): Outcome
    requires i <= |Keys(one)|
    decreases one, 1, |Keys(one)| - i
  {
    if i == |Keys(one)| then Outcome(MATCH, [])
    else
      var step := MemberStep(one, two, i, path, lookup);
      if step.verdict != MATCH then step
      else Prepend(step.trail, CompareMembers(one, two, i + 1, path, lookup))
  }

  /** One step of the key walk: the key's outcome if it did not match, else
      its notices before the rest of the walk. */
  lemma MembersUnfold(one: Json, two: Operand, i: nat, path: string, lookup: Lookup)
    requires i < |Keys(one)|
    ensures var step := MemberStep(one, two, i, path, lookup);
      CompareMembers(one, two, i, path, lookup) ==
        if step.verdict != MATCH then step else Prepend(step.trail, CompareMembers(one, two, i + 1, path, lookup))
  {
  }

  lemma MembersEnd(one: Json, two: Operand, path: string, lookup: Lookup)
    ensures CompareMembers(one, two, |Keys(one)|, path, lookup) == Outcome(MATCH, [])
  {
  }

  /** The verdict of the key walk from key `i` on: that of key `i` if it did
      not match, else that of the rest of the walk. */
  lemma MembersVerdict(one: Json, two: Operand, i: nat, path: string, lookup: Lookup)
    requires i < |Keys(one)|
    ensures var v := MemberStep(one, two, i, path, lookup).verdict;
      CompareMembers(one, two, i, path, lookup).verdict ==
        if v != MATCH then v else CompareMembers(one, two, i + 1, path, lookup).verdict
  {
    MembersUnfold(one, two, i, path, lookup);
  }

  /** A walk over keys that matches from key `i` on matched at every key after it. */
  lemma {:induction false} MembersMatchAt(one: Json, two: Operand, i: nat, j: nat, path: string, lookup: Lookup)
    requires i <= j < |Keys(one)|
    requires CompareMembers(one, two, i, path, lookup).verdict == MATCH
    ensures MemberStep(one, two, j, path, lookup).verdict == MATCH
    decreases j - i
  {
    MembersVerdict(one, two, i, path, lookup);
    if i < j {
      MembersMatchAt(one, two, i + 1, j, path, lookup);
    }
  }

  /** The "Prop missing from objectTwo" notice (lines 87-89) when `objectTwo` does not own `key`. */
  function MissingNotice(key: string, path: string, one: Json, two: Operand): seq<Diagnostic> {
    if key in OperandKeys(two) then [] else [Diagnostic(PropertyMissing(key, OperandKeys(two)), path, one, two)]
  }

  /** One pass of that loop: a key `objectTwo` lacks is reported and then
      compared all the same, against whatever `objectTwo[key]` yields. */
  function MemberStep(one: Json, two: Operand, i: nat, path: string, lookup: Lookup): Outcome
    requires i < |Keys(one)|
    decreases one, 0
  {
    var key := Keys(one)[i];
    Prepend(MissingNotice(key, path, one, two), Compare(ValueAt(one, i), Get(two, key, lookup), path + "." + key, lookup))
  }
}
