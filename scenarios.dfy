/** The six cases of `test()` (src/index.ts, lines 99-120), with the
    diagnostics each one logs, and a few inputs that show the behaviour of
    the missing-key branch and of the prototype-chain lookup. */
module Scenarios {
  import opened JsonValues
  import opened Comparator
  import opened Trail
  import opened Equality
  import opened FallThrough

  const ROOT := "root"

  /** `{ a: a, b: b }` */
  function AB(a: Json, b: Json): Json {
    JObj([Member("a", a), Member("b", b)])
  }

  const ONE := JNum(1.0)
  const TWO := JNum(2.0)

  /** `basicMatch`, line 101: equal objects match and log nothing. */
  lemma BasicMatch(lookup: Lookup)
    ensures Compare(AB(ONE, ONE), Node(AB(ONE, ONE)), ROOT, lookup) == Outcome(MATCH, [])
  {
    CompareReflexive(AB(ONE, ONE), ROOT, lookup);
  }

  /** `nestedBasicMatch`, line 104. */
  lemma NestedBasicMatch(lookup: Lookup)
    ensures Compare(JArr([AB(ONE, ONE)]), Node(JArr([AB(ONE, ONE)])), ROOT, lookup) == Outcome(MATCH, [])
  {
    CompareReflexive(JArr([AB(ONE, ONE)]), ROOT, lookup);
  }

  /** A key both objects hold at the same position is looked up without a
      missing-key notice: one pass of the key loop compares the two values. */
  lemma SharedKeyStep(one: Json, two: Json, i: nat, path: string, lookup: Lookup)
    requires i < |Keys(one)| && i < |Keys(two)| && Keys(one)[i] == Keys(two)[i] && DistinctKeys(Keys(two))
    ensures MemberStep(one, Node(two), i, path, lookup) ==
      Compare(ValueAt(one, i), Node(ValueAt(two, i)), path + "." + Keys(one)[i], lookup)
  {
    var key := Keys(one)[i];
    IndexOfDistinct(Keys(two), i);
    assert IndexOf(Keys(two), key) == i;
    assert Get(Node(two), key, lookup) == Node(ValueAt(two, i));
    assert key in OperandKeys(Node(two));
    assert MissingNotice(key, path, one, Node(two)) == [];
    var child := Compare(ValueAt(one, i), Node(ValueAt(two, i)), path + "." + key, lookup);
    assert [] + child.trail == child.trail;
  }

  lemma KeysAB(a: Json, b: Json)
    ensures Keys(AB(a, b)) == ["a", "b"]
  {
    assert MemberKeys([Member("a", a), Member("b", b)]) == ["a"] + MemberKeys([Member("b", b)]);
  }

  /** `{a, b}` against `{a, b}`: `a` first, then `b` only if `a` matched. */
  lemma CompareAB(a1: Json, b1: Json, a2: Json, b2: Json, path: string, lookup: Lookup)
    ensures Compare(AB(a1, b1), Node(AB(a2, b2)), path, lookup) ==
      var first := Compare(a1, Node(a2), path + ".a", lookup);
      if first.verdict != MATCH then first
      else Prepend(first.trail, Compare(b1, Node(b2), path + ".b", lookup))
  {
    var one, two := AB(a1, b1), AB(a2, b2);
    KeysAB(a1, b1);
    KeysAB(a2, b2);
    MembersAB(a1, b1, a2, b2, path, lookup);
    assert Compare(one, Node(two), path, lookup) == CompareMembers(one, Node(two), 0, path, lookup);
  }

  lemma MembersAB(a1: Json, b1: Json, a2: Json, b2: Json, path: string, lookup: Lookup)
    requires Keys(AB(a1, b1)) == ["a", "b"] && Keys(AB(a2, b2)) == ["a", "b"]
    ensures CompareMembers(AB(a1, b1), Node(AB(a2, b2)), 0, path, lookup) ==
      var first := Compare(a1, Node(a2), path + ".a", lookup);
      if first.verdict != MATCH then first
      else Prepend(first.trail, Compare(b1, Node(b2), path + ".b", lookup))
  {
    var one, two := AB(a1, b1), AB(a2, b2);
    SharedKeyStep(one, two, 0, path, lookup);
    SharedKeyStep(one, two, 1, path, lookup);
    assert path + "." + "a" == path + ".a" && path + "." + "b" == path + ".b";
    assert ValueAt(one, 0) == a1 && ValueAt(one, 1) == b1 && ValueAt(two, 0) == a2 && ValueAt(two, 1) == b2;
    var first := MemberStep(one, Node(two), 0, path, lookup);
    var second := MemberStep(one, Node(two), 1, path, lookup);
    assert CompareMembers(one, Node(two), 2, path, lookup) == Outcome(MATCH, []);
    assert second.trail + [] == second.trail;
    assert CompareMembers(one, Node(two), 1, path, lookup) == second;
    assert CompareMembers(one, Node(two), 0, path, lookup) == if first.verdict != MATCH then first else Prepend(first.trail, second);
  }

  /** `basicMismatch`, line 107: the values under `b` differ, reported at `root.b`. */
  lemma BasicMismatch(lookup: Lookup)
    ensures Compare(AB(ONE, ONE), Node(AB(ONE, TWO)), ROOT, lookup) ==
      Reject(ValueMismatch, "root.b", ONE, Node(TWO))
  {
    BasicMismatchAt(ROOT, lookup);
    assert ROOT + ".b" == "root.b";
  }

  lemma BasicMismatchAt(path: string, lookup: Lookup)
    ensures Compare(AB(ONE, ONE), Node(AB(ONE, TWO)), path, lookup) ==
      Reject(ValueMismatch, path + ".b", ONE, Node(TWO))
  {
    CompareAB(ONE, ONE, ONE, TWO, path, lookup);
    assert Compare(ONE, Node(ONE), path + ".a", lookup) == Outcome(MATCH, []);
  }

  /** `basicTypeMismatch`, line 110: `1` and `"1"` differ, reported at `root.a`. */
  lemma BasicTypeMismatch(lookup: Lookup)
    ensures Compare(AB(ONE, ONE), Node(AB(JStr("1"), ONE)), ROOT, lookup) ==
      Reject(ValueMismatch, "root.a", ONE, Node(JStr("1")))
  {
    CompareAB(ONE, ONE, JStr("1"), ONE, ROOT, lookup);
    assert ROOT + ".a" == "root.a";
  }

  /** One element against one element, either of them an array or an object:
      a failing pair decides, compared at `path[0]`. */
  lemma CompareSingleton(x: Json, y: Json, path: string, lookup: Lookup)
    requires !IsScalar(x) || !IsScalar(y)
    requires Compare(x, Node(y), path + "[0]", lookup).verdict != MATCH
    ensures Compare(JArr([x]), Node(JArr([y])), path, lookup) == Compare(x, Node(y), path + "[0]", lookup)
  {
    assert NatToString(0) == "0";
    assert path + "[" + NatToString(0) + "]" == path + "[0]";
    assert ItemStep(JArr([x]), JArr([y]), 0, path, lookup) == Compare(x, Node(y), path + "[0]", lookup);
  }

  /** `nestedBasicMismatch`, line 113: the path of an element is `root[0]`. */
  lemma NestedBasicMismatch(lookup: Lookup)
    ensures Compare(JArr([AB(ONE, ONE)]), Node(JArr([AB(ONE, TWO)])), ROOT, lookup) ==
      Reject(ValueMismatch, "root[0].b", ONE, Node(TWO))
  {
    assert ROOT + "[0]" == "root[0]" && "root[0]" + ".b" == "root[0].b";
    BasicMismatchAt("root[0]", lookup);
    CompareSingleton(AB(ONE, ONE), AB(ONE, TWO), ROOT, lookup);
  }

  /** `nestingMismatch`, line 116: `1` against `[1]` fails the kind check at `root[0].b`. */
  lemma NestingMismatch(lookup: Lookup)
    ensures Compare(JArr([AB(ONE, ONE)]), Node(JArr([AB(ONE, JArr([ONE]))])), ROOT, lookup) ==
      Reject(TwoIsArray, "root[0].b", ONE, Node(JArr([ONE])))
  {
    assert ROOT + "[0]" == "root[0]" && "root[0]" + ".a" == "root[0].a" && "root[0]" + ".b" == "root[0].b";
    CompareAB(ONE, ONE, ONE, JArr([ONE]), "root[0]", lookup);
    assert Compare(ONE, Node(ONE), "root[0].a", lookup) == Outcome(MATCH, []);
    CompareSingleton(AB(ONE, ONE), AB(ONE, JArr([ONE])), ROOT, lookup);
  }

  /** Strict equality: a number never equals a string, and `null` equals only `null`. */
  lemma ScalarKinds(lookup: Lookup)
    ensures Compare(ONE, Node(JStr("1")), ROOT, lookup).verdict == Returned(false)
    ensures Compare(JNull, Node(JBool(false)), ROOT, lookup).verdict == Returned(false)
    ensures Compare(JNull, Node(JNull), ROOT, lookup) == Outcome(MATCH, [])
  {
  }

  /** Two scalars in arrays that differ are reported at the arrays' own path,
      with the index and both arrays. */
  lemma ElementMismatchAtArrayPath(lookup: Lookup)
    ensures Compare(JArr([ONE]), Node(JArr([TWO])), ROOT, lookup) ==
      Reject(ItemMismatch(0, ONE, TWO), ROOT, JArr([ONE]), Node(JArr([TWO])))
  {
    assert ItemStep(JArr([ONE]), JArr([TWO]), 0, ROOT, lookup) == Reject(ItemMismatch(0, ONE, TWO), ROOT, JArr([ONE]), Node(JArr([TWO])));
  }

  /** `{ a: x }` against `{ b: 1 }`: the missing key `a` is reported, and
      `x` is still compared, with `undefined`. */
  lemma LoneMissingKey(x: Json, path: string, lookup: Lookup)
    ensures Compare(JObj([Member("a", x)]), Node(JObj([Member("b", ONE)])), path, lookup) ==
      Prepend([Diagnostic(PropertyMissing("a", ["b"]), path, JObj([Member("a", x)]), Node(JObj([Member("b", ONE)])))],
              Compare(x, Undefined, path + ".a", lookup))
  {
    var one, two := JObj([Member("a", x)]), JObj([Member("b", ONE)]);
    assert Keys(one) == ["a"] && Keys(two) == ["b"];
    assert Get(Node(two), "a", lookup) == Undefined;
    assert path + "." + "a" == path + ".a";
    AgainstUndefined(x, path + ".a", lookup);
    var step := MemberStep(one, Node(two), 0, path, lookup);
    assert step.verdict != MATCH;
    assert CompareMembers(one, Node(two), 0, path, lookup) == step;
  }

  /** A key missing from `objectTwo` is reported and its value compared with
      `undefined` all the same: a scalar then fails strict equality ... */
  lemma MissingKeyScalar(lookup: Lookup)
    ensures Compare(JObj([Member("a", ONE)]), Node(JObj([Member("b", ONE)])), ROOT, lookup) ==
      Outcome(Returned(false), [
        Diagnostic(PropertyMissing("a", ["b"]), ROOT, JObj([Member("a", ONE)]), Node(JObj([Member("b", ONE)]))),
        Diagnostic(ValueMismatch, "root.a", ONE, Undefined)])
  {
    LoneMissingKey(ONE, ROOT, lookup);
    assert ROOT + ".a" == "root.a";
    AgainstUndefined(ONE, "root.a", lookup);
  }

  /** ... an array fails the kind check ... */
  lemma MissingKeyArray(lookup: Lookup)
    ensures Compare(JObj([Member("a", JArr([]))]), Node(JObj([Member("b", ONE)])), ROOT, lookup) ==
      Outcome(Returned(false), [
        Diagnostic(PropertyMissing("a", ["b"]), ROOT, JObj([Member("a", JArr([]))]), Node(JObj([Member("b", ONE)]))),
        Diagnostic(OneIsArray, "root.a", JArr([]), Undefined)])
  {
    LoneMissingKey(JArr([]), ROOT, lookup);
    assert ROOT + ".a" == "root.a";
    AgainstUndefined(JArr([]), "root.a", lookup);
  }

  /** ... and an object makes `Object.keys(undefined)` throw. */
  lemma MissingKeyObject(lookup: Lookup)
    ensures Compare(JObj([Member("a", JObj([]))]), Node(JObj([Member("b", ONE)])), ROOT, lookup) ==
      Outcome(ThrewTypeError, [
        Diagnostic(PropertyMissing("a", ["b"]), ROOT, JObj([Member("a", JObj([]))]), Node(JObj([Member("b", ONE)])))])
  {
    LoneMissingKey(JObj([]), ROOT, lookup);
    AgainstUndefined(JObj([]), ROOT + ".a", lookup);
  }

  /** `{ "toString": 1 }` */
  const OWNS_TO_STRING := JObj([Member("toString", ONE)])

  /** `{ "toString": 1 }` against `1`, in either order and one level down:
      `${objectOne}` or `${objectTwo}` in the message of line 70 throws, with
      or without logging and under either lookup, and nothing is logged. */
  lemma ToStringAgainstScalar(lookup: Lookup)
    ensures Compare(OWNS_TO_STRING, Node(ONE), ROOT, lookup) == Outcome(ThrewTypeError, [])
    ensures Compare(ONE, Node(OWNS_TO_STRING), ROOT, lookup) == Outcome(ThrewTypeError, [])
    ensures Compare(JObj([Member("a", OWNS_TO_STRING)]), Node(JObj([Member("a", ONE)])), ROOT, lookup) ==
      Outcome(ThrewTypeError, [])
  {
    assert MemberKeys(OWNS_TO_STRING.members) == ["toString"];
    var one, two := JObj([Member("a", OWNS_TO_STRING)]), JObj([Member("a", ONE)]);
    assert Keys(one) == ["a"] && Keys(two) == ["a"];
    SharedKeyStep(one, two, 0, ROOT, lookup);
    var step := MemberStep(one, Node(two), 0, ROOT, lookup);
    assert step == Outcome(ThrewTypeError, []);
    assert CompareMembers(one, Node(two), 0, ROOT, lookup) == step;
    assert Compare(one, Node(two), ROOT, lookup) == CompareMembers(one, Node(two), 0, ROOT, lookup);
  }

  /** `{ "toString": {} }` */
  const TO_STRING := JObj([Member("toString", JObj([]))])
  /** `{ "x": {} }` */
  const X := JObj([Member("x", JObj([]))])

  /** `{ "toString": {} }` and `{ "x": {} }`: the key `toString` is missing
      from the second object, yet `objectTwo["toString"]` finds the function
      `Object.prototype.toString`, which has no own keys, as `{}` has none. As
      written the comparison matches, after logging the missing key; the
      trees are not equal. */
  lemma InheritedKeyMatches()
    ensures Compare(TO_STRING, Node(X), ROOT, PrototypeChain) ==
      Outcome(MATCH, [Diagnostic(PropertyMissing("toString", ["x"]), ROOT, TO_STRING, Node(X))])
    ensures !Same(TO_STRING, X)
  {
    InheritedKeyMatchesAt(ROOT);
    assert MemberKeys(X.members) == ["x"];
  }

  lemma InheritedKeyMatchesAt(path: string)
    ensures Compare(TO_STRING, Node(X), path, PrototypeChain) ==
      Outcome(MATCH, [Diagnostic(PropertyMissing("toString", ["x"]), path, TO_STRING, Node(X))])
  {
    assert Keys(TO_STRING) == ["toString"] && Keys(X) == ["x"];
    assert Get(Node(X), "toString", PrototypeChain) == Inherited("toString");
  }

  /** Equal-length arrays go on from the element loop into the property walk
      (no `return` after line 65), so with JavaScript's lookup the notice for
      `toString` is logged twice: at `root[0]` by the element loop, and at
      `root.0` by the property walk over the same element. */
  lemma ArraysWalkedTwice()
    ensures Compare(JArr([TO_STRING]), Node(JArr([X])), ROOT, PrototypeChain) ==
      Outcome(MATCH, [Diagnostic(PropertyMissing("toString", ["x"]), "root[0]", TO_STRING, Node(X)),
                      Diagnostic(PropertyMissing("toString", ["x"]), "root.0", TO_STRING, Node(X))])
  {
    var one, two := JArr([TO_STRING]), JArr([X]);
    var first := Diagnostic(PropertyMissing("toString", ["x"]), "root[0]", TO_STRING, Node(X));
    var second := Diagnostic(PropertyMissing("toString", ["x"]), "root.0", TO_STRING, Node(X));
    InheritedKeyMatchesAt("root[0]");
    InheritedKeyMatchesAt("root.0");
    assert NatToString(0) == "0";
    assert ROOT + "[" + NatToString(0) + "]" == "root[0]" && ROOT + "." + "0" == "root.0";
    assert ItemStep(one, two, 0, ROOT, PrototypeChain) == Outcome(MATCH, [first]);
    assert CompareItems(one, two, 1, ROOT, PrototypeChain) == Outcome(MATCH, []);
    assert [first] + [] == [first];
    assert CompareItems(one, two, 0, ROOT, PrototypeChain) == Outcome(MATCH, [first]);
    ArrayKeyAt(one, 0);
    ArrayKeyAt(two, 0);
    assert Get(Node(two), "0", PrototypeChain) == Node(X);
    assert MissingNotice("0", ROOT, one, Node(two)) == [];
    assert MemberStep(one, Node(two), 0, ROOT, PrototypeChain) == Outcome(MATCH, [second]);
    assert CompareMembers(one, Node(two), 1, ROOT, PrototypeChain) == Outcome(MATCH, []);
    assert [second] + [] == [second];
    assert CompareRest(one, Node(two), ROOT, PrototypeChain) == Outcome(MATCH, [second]);
  }

  /** The same two documents in the other order: `objectTwo["x"]` is
      `undefined`, and the comparison throws. */
  lemma InheritedKeyReversed()
    ensures Compare(X, Node(TO_STRING), ROOT, PrototypeChain).verdict == ThrewTypeError
  {
    var one, two := X, TO_STRING;
    assert Keys(one) == ["x"] && Keys(two) == ["toString"];
    assert Get(Node(two), "x", PrototypeChain) == Undefined;
  }

  /** With the corrected lookup the first order does not match either. */
  lemma InheritedKeyOwnLookup()
    ensures Compare(TO_STRING, Node(X), ROOT, OwnProperties).verdict == ThrewTypeError
  {
    var one, two := TO_STRING, X;
    assert Keys(one) == ["toString"] && Keys(two) == ["x"];
    assert Get(Node(two), "toString", OwnProperties) == Undefined;
  }

  /** Even with the corrected lookup, what happens on a missing key depends on
      the order of the documents: `{ "a": {} }` against `{ "b": 1 }` throws,
      while `{ "b": 1 }` against `{ "a": {} }` returns false. */
  lemma OwnLookupAsymmetric()
    ensures Compare(JObj([Member("a", JObj([]))]), Node(JObj([Member("b", ONE)])), ROOT, OwnProperties).verdict == ThrewTypeError
    ensures Compare(JObj([Member("b", ONE)]), Node(JObj([Member("a", JObj([]))])), ROOT, OwnProperties).verdict == Returned(false)
  {
    MissingKeyObject(OwnProperties);
    var one, two := JObj([Member("b", ONE)]), JObj([Member("a", JObj([]))]);
    assert Keys(one) == ["b"] && Keys(two) == ["a"];
    assert Get(Node(two), "b", OwnProperties) == Undefined;
    AgainstUndefined(ONE, ROOT + "." + "b", OwnProperties);
    var step := MemberStep(one, Node(two), 0, ROOT, OwnProperties);
    assert step.verdict == Returned(false);
    assert CompareMembers(one, Node(two), 0, ROOT, OwnProperties) == step;
    assert Compare(one, Node(two), ROOT, OwnProperties) == CompareMembers(one, Node(two), 0, ROOT, OwnProperties);
  }
}
