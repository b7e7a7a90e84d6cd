/** `recursiveCompare` decides `Same`: equal trees always match, and with the
    corrected lookup a match means the trees are equal. */
module Equality {
  import opened JsonValues
  import opened Comparator
  import opened Trail

  lemma WellFormedValueAt(j: Json, i: nat)
    requires WellFormed(j) && i < |Keys(j)|
    ensures WellFormed(ValueAt(j, i))
  {
  }

  /** The `i`-th own key of `one` is a key of `two`, and the two values under it are `Same`. */
  predicate MemberMatches(one: Json, two: Json, i: nat)
    requires i < |Keys(one)|
  {
    var key := Keys(one)[i];
    key in Keys(two) && Same(ValueAt(one, i), ValueAt(two, IndexOf(Keys(two), key)))
  }

  /** Between arrays of one length, the property walk of lines 86-94 visits
      the elements pairwise. */
  lemma ArrayMembers(one: Json, two: Json, i: nat)
    requires one.JArr? && two.JArr? && |one.items| == |two.items| && i < |one.items|
    ensures MemberMatches(one, two, i) <==> Same(one.items[i], two.items[i])
  {
    assert Keys(one)[i] == NatToString(i) == Keys(two)[i];
    if IndexOf(Keys(two), Keys(one)[i]) < i {
      NatToStringInjective(IndexOf(Keys(two), Keys(one)[i]), i);
    }
  }

  /** Between objects, the property walk looks each key up as `Same` does. */
  lemma ObjectMembers(one: Json, two: Json, i: nat)
    requires one.JObj? && two.JObj? && i < |one.members|
    ensures MemberMatches(one, two, i) <==>
      one.members[i].key in MemberKeys(two.members) && Same(one.members[i].value, MemberValue(two.members, one.members[i].key))
  {
    assert Keys(one)[i] == one.members[i].key;
  }

  /** Equal trees match and log nothing, under either lookup. */
  lemma {:induction false} SameMatches(one: Json, two: Json, path: string, lookup: Lookup)
    requires WellFormed(one) && WellFormed(two) && Same(one, two)
    ensures Compare(one, Node(two), path, lookup) == Outcome(MATCH, [])
    decreases one, 3
  {
    if one.JArr? {
      SameMatchesItems(one, two, 0, path, lookup);
    }
    SameMatchesRest(one, two, path, lookup);
  }

  lemma {:induction false} SameMatchesRest(one: Json, two: Json, path: string, lookup: Lookup)
    requires WellFormed(one) && WellFormed(two) && Same(one, two)
    ensures CompareRest(one, Node(two), path, lookup) == Outcome(MATCH, [])
    decreases one, 2
  {
    if !IsScalar(one) {
      SameMatchesMembers(one, two, 0, path, lookup);
    }
  }

  /** Equal trees agree on every own key the property walk visits. */
  lemma SameMemberMatches(one: Json, two: Json, i: nat)
    requires WellFormed(two) && Same(one, two) && !IsScalar(one) && i < |Keys(one)|
    ensures MemberMatches(one, two, i)
  {
    if one.JArr? {
      ArrayMembers(one, two, i);
    } else {
      ObjectMembers(one, two, i);
    }
  }

  lemma {:induction false} SameMatchesItems(one: Json, two: Json, i: nat, path: string, lookup: Lookup)
    requires WellFormed(one) && WellFormed(two)
    requires one.JArr? && two.JArr? && |one.items| == |two.items| && i <= |one.items|
    requires forall j | i <= j < |one.items| :: Same(one.items[j], two.items[j])
    ensures CompareItems(one, two, i, path, lookup) == Outcome(MATCH, [])
    decreases one, 1, |one.items| - i
  {
    if i < |one.items| {
      var itemOne, itemTwo := one.items[i], two.items[i];
      if !IsScalar(itemOne) || !IsScalar(itemTwo) {
        SameMatches(itemOne, itemTwo, path + "[" + NatToString(i) + "]", lookup);
      }
      SameMatchesItems(one, two, i + 1, path, lookup);
    }
  }

  lemma {:induction false} SameMatchesMembers(one: Json, two: Json, i: nat, path: string, lookup: Lookup)
    requires WellFormed(one) && WellFormed(two) && Same(one, two) && !IsScalar(one) && i <= |Keys(one)|
    ensures CompareMembers(one, Node(two), i, path, lookup) == Outcome(MATCH, [])
    decreases one, 1, |Keys(one)| - i
  {
    if i < |Keys(one)| {
      SameMemberMatches(one, two, i);
      SameMatchesMemberStep(one, two, i, path, lookup);
      SameMatchesMembers(one, two, i + 1, path, lookup);
    }
  }

  lemma {:induction false} SameMatchesMemberStep(one: Json, two: Json, i: nat, path: string, lookup: Lookup)
    requires WellFormed(one) && WellFormed(two) && i < |Keys(one)| && MemberMatches(one, two, i)
    ensures MemberStep(one, Node(two), i, path, lookup) == Outcome(MATCH, [])
    decreases one, 0
  {
    var key := Keys(one)[i];
    var k := IndexOf(Keys(two), key);
    assert key in Keys(two);
    assert MissingNotice(key, path, one, Node(two)) == [];
    assert Get(Node(two), key, lookup) == Node(ValueAt(two, k));
    WellFormedValueAt(one, i);
    WellFormedValueAt(two, k);
    SameMatches(ValueAt(one, i), ValueAt(two, k), path + "." + key, lookup);
  }

  /** With the corrected lookup, a match means the trees are equal. */
  lemma {:induction false} MatchIsSame(one: Json, two: Json, path: string)
    requires WellFormed(one) && WellFormed(two)
    requires Compare(one, Node(two), path, OwnProperties).verdict == MATCH
    ensures Same(one, two)
    decreases one, 3
  {
    if one.JArr? {
      MatchIsSameItems(one, two, 0, path);
    } else {
      MatchIsSameRest(one, two, path);
    }
  }

  lemma {:induction false} MatchIsSameRest(one: Json, two: Json, path: string)
    requires WellFormed(one) && WellFormed(two) && !one.JArr? && !two.JArr?
    requires CompareRest(one, Node(two), path, OwnProperties).verdict == MATCH
    ensures Same(one, two)
    decreases one, 2
  {
    if !IsScalar(one) && !IsScalar(two) {
      forall j | 0 <= j < |one.members|
        ensures one.members[j].key in MemberKeys(two.members) && Same(one.members[j].value, MemberValue(two.members, one.members[j].key))
      {
        MembersMatchAt(one, Node(two), 0, j, path, OwnProperties);
        MatchIsSameMemberStep(one, two, j, path);
        ObjectMembers(one, two, j);
      }
    }
  }

  lemma {:induction false} MatchIsSameItems(one: Json, two: Json, i: nat, path: string)
    requires WellFormed(one) && WellFormed(two)
    requires one.JArr? && two.JArr? && |one.items| == |two.items| && i <= |one.items|
    requires CompareItems(one, two, i, path, OwnProperties).verdict == MATCH
    ensures forall j | i <= j < |one.items| :: Same(one.items[j], two.items[j])
    decreases one, 1, |one.items| - i
  {
    if i < |one.items| {
      var itemOne, itemTwo := one.items[i], two.items[i];
      assert ItemStep(one, two, i, path, OwnProperties).verdict == MATCH;
      if !IsScalar(itemOne) || !IsScalar(itemTwo) {
        MatchIsSame(itemOne, itemTwo, path + "[" + NatToString(i) + "]");
      }
      MatchIsSameItems(one, two, i + 1, path);
    }
  }

  lemma {:induction false} MatchIsSameMemberStep(one: Json, two: Json, i: nat, path: string)
    requires WellFormed(one) && WellFormed(two) && i < |Keys(one)|
    requires MemberStep(one, Node(two), i, path, OwnProperties).verdict == MATCH
    ensures MemberMatches(one, two, i)
    decreases one, 0
  {
    var key := Keys(one)[i];
    var path' := path + "." + key;
    WellFormedValueAt(one, i);
    GetResolves(Node(two), key, OwnProperties);
    if key in Keys(two) {
      var k := IndexOf(Keys(two), key);
      WellFormedValueAt(two, k);
      MatchIsSame(ValueAt(one, i), ValueAt(two, k), path');
    } else {
      AgainstUndefined(ValueAt(one, i), path', OwnProperties);
    }
  }

  /** Comparing a document with itself matches and logs nothing, under either lookup. */
  lemma CompareReflexive(x: Json, path: string, lookup: Lookup)
    requires WellFormed(x)
    ensures Compare(x, Node(x), path, lookup) == Outcome(MATCH, [])
  {
    SameReflexive(x);
    SameMatches(x, x, path, lookup);
  }

  /** With the corrected lookup, the verdict is a match exactly when the trees are equal. */
  lemma CompareDecidesSame(one: Json, two: Json, path: string)
    requires WellFormed(one) && WellFormed(two)
    ensures Compare(one, Node(two), path, OwnProperties).verdict == MATCH <==> Same(one, two)
  {
    if Same(one, two) {
      SameMatches(one, two, path, OwnProperties);
    }
    if Compare(one, Node(two), path, OwnProperties).verdict == MATCH {
      MatchIsSame(one, two, path);
    }
  }

  /** With the corrected lookup, swapping the documents does not change
      whether they match. The verdict itself can change when they do not:
      one order may throw where the other returns false. */
  lemma MatchSymmetric(one: Json, two: Json, path: string, path': string)
    requires WellFormed(one) && WellFormed(two)
    ensures Compare(one, Node(two), path, OwnProperties).verdict == MATCH <==>
      Compare(two, Node(one), path', OwnProperties).verdict == MATCH
  {
    CompareDecidesSame(one, two, path);
    CompareDecidesSame(two, one, path');
    if Same(one, two) {
      SameSymmetric(one, two);
    }
    if Same(two, one) {
      SameSymmetric(two, one);
    }
  }

  /** With the corrected lookup, objects (and arrays) that match have the same own keys. */
  lemma MatchHasSameKeys(one: Json, two: Json, path: string)
    requires WellFormed(one) && WellFormed(two) && !IsScalar(one)
    requires Compare(one, Node(two), path, OwnProperties).verdict == MATCH
    ensures forall k :: k in Keys(one) <==> k in Keys(two)
  {
    MatchIsSame(one, two, path);
    SameKeys(one, two);
  }
}
