/** Where `recursiveCompare` stops: at the two nodes themselves when their
    shapes differ, otherwise at the first element or key whose comparison
    does not match, without looking at the ones after it. */
module ShortCircuit {
  import opened JsonValues
  import opened Comparator
  import opened Trail

  /** What lines 24-38 and 68-84 check of two nodes before anything below
      them is compared: both arrays or neither, arrays of one length, a
      scalar only against the same scalar, and as many keys on both sides. */
  predicate SameShape(one: Json, two: Operand) {
    (one.JArr? <==> IsArray(two)) &&
    (one.JArr? ==> |one.items| == |two.node.items|) &&
    (IsScalar(one) || IsScalarOperand(two) ==> two == Node(one)) &&
    (!IsScalar(one) && !two.Undefined? ==> |Keys(one)| == |OperandKeys(two)|)
  }

  /** Nodes of different shapes are rejected at once, with one record at
      their own path, before any child is compared: each check of lines 24-84
      logs its own message. The one exception is a scalar against an object
      that owns `toString`: the message of line 70 cannot be built, and the
      comparison throws before anything is logged. */
  lemma ShapeMismatchRejected(one: Json, two: Operand, path: string, lookup: Lookup)
    ensures one.JArr? && !IsArray(two) ==> Compare(one, two, path, lookup) == Reject(OneIsArray, path, one, two)
    ensures IsArray(two) && !one.JArr? ==> Compare(one, two, path, lookup) == Reject(TwoIsArray, path, one, two)
    ensures one.JArr? && IsArray(two) && |one.items| != |two.node.items| ==>
      Compare(one, two, path, lookup) == Reject(LengthMismatch(|one.items|, |two.node.items|), path, one, two)
    ensures !one.JArr? && !IsArray(two) && (IsScalar(one) || IsScalarOperand(two)) && two != Node(one) &&
            !MessageThrows(one, two) ==>
      Compare(one, two, path, lookup) == Reject(ValueMismatch, path, one, two)
    ensures (IsScalar(one) || IsScalarOperand(two)) && MessageThrows(one, two) ==>
      !SameShape(one, two) && Compare(one, two, path, lookup) == Outcome(ThrewTypeError, [])
    ensures (!one.JArr? && !IsArray(two) && !IsScalar(one) && !IsScalarOperand(two) && !two.Undefined? &&
             |Keys(one)| != |OperandKeys(two)|) ==>
      Compare(one, two, path, lookup) == Reject(PropertyCountMismatch(Keys(one), OperandKeys(two)), path, one, two)
    ensures !SameShape(one, two) && !((IsScalar(one) || IsScalarOperand(two)) && MessageThrows(one, two)) ==>
      exists reason :: Compare(one, two, path, lookup) == Reject(reason, path, one, two)
  {
    if one.JArr? && !IsArray(two) {
      assert Compare(one, two, path, lookup) == Reject(OneIsArray, path, one, two);
    } else if IsArray(two) && !one.JArr? {
      assert Compare(one, two, path, lookup) == Reject(TwoIsArray, path, one, two);
    } else if one.JArr? && |one.items| != |two.node.items| {
      assert Compare(one, two, path, lookup) == Reject(LengthMismatch(|one.items|, |two.node.items|), path, one, two);
    } else if one.JArr? {
    } else if IsScalar(one) || IsScalarOperand(two) {
      if two != Node(one) && !MessageThrows(one, two) {
        assert Compare(one, two, path, lookup) == Reject(ValueMismatch, path, one, two);
      }
    } else if !two.Undefined? && |Keys(one)| != |OperandKeys(two)| {
      var keysOne, keysTwo := Keys(one), OperandKeys(two);
      assert Compare(one, two, path, lookup) == Reject(PropertyCountMismatch(keysOne, keysTwo), path, one, two);
    }
  }

  /** A matching element pair logs nothing with the corrected lookup. */
  lemma OwnItemStepQuiet(one: Json, two: Json, i: nat, path: string)
    requires one.JArr? && two.JArr? && |one.items| == |two.items| && i < |one.items|
    requires ItemStep(one, two, i, path, OwnProperties).verdict == MATCH
    ensures ItemStep(one, two, i, path, OwnProperties).trail == []
  {
    var itemOne, itemTwo := one.items[i], two.items[i];
    if !IsScalar(itemOne) || !IsScalar(itemTwo) {
      OwnTrail(itemOne, Node(itemTwo), path + "[" + NatToString(i) + "]");
    }
  }

  /** From element `i` on, the walk of lines 39-65 ends on the first pair `j`
      that does not match: its outcome is that pair's, after only the
      missing-key notices of the pairs before it (none with the corrected lookup). */
  lemma {:induction false} ItemsStopAt(one: Json, two: Json, i: nat, j: nat, path: string, lookup: Lookup)
    requires one.JArr? && two.JArr? && |one.items| == |two.items| && i <= j < |one.items|
    requires forall k | i <= k < j :: ItemStep(one, two, k, path, lookup).verdict == MATCH
    requires ItemStep(one, two, j, path, lookup).verdict != MATCH
    ensures exists t | Informational(t) && (lookup == OwnProperties ==> t == []) ::
      CompareItems(one, two, i, path, lookup) == Prepend(t, ItemStep(one, two, j, path, lookup))
    decreases j - i
  {
    var last := ItemStep(one, two, j, path, lookup);
    if i == j {
      assert CompareItems(one, two, i, path, lookup) == Prepend([], last);
    } else {
      var step := ItemStep(one, two, i, path, lookup);
      ItemsStopAt(one, two, i + 1, j, path, lookup);
      var t :| Informational(t) && (lookup == OwnProperties ==> t == []) &&
        CompareItems(one, two, i + 1, path, lookup) == Prepend(t, last);
      ItemStepTrailShape(one, two, i, path, lookup);
      if lookup == OwnProperties {
        OwnItemStepQuiet(one, two, i, path);
      }
      PrependPrepend(step.trail, t, last);
      assert Informational(step.trail + t);
      assert CompareItems(one, two, i, path, lookup) == Prepend(step.trail + t, last);
    }
  }

  /** Between arrays of one length, the first element pair that does not
      match decides the comparison; the pairs after it are never compared. */
  lemma FirstItemDecides(one: Json, two: Json, j: nat, path: string, lookup: Lookup)
    requires one.JArr? && two.JArr? && |one.items| == |two.items| && j < |one.items|
    requires forall k | 0 <= k < j :: ItemStep(one, two, k, path, lookup).verdict == MATCH
    requires ItemStep(one, two, j, path, lookup).verdict != MATCH
    ensures exists t | Informational(t) && (lookup == OwnProperties ==> t == []) ::
      Compare(one, Node(two), path, lookup) == Prepend(t, ItemStep(one, two, j, path, lookup))
  {
    ItemsStopAt(one, two, 0, j, path, lookup);
    var t :| Informational(t) && (lookup == OwnProperties ==> t == []) &&
      CompareItems(one, two, 0, path, lookup) == Prepend(t, ItemStep(one, two, j, path, lookup));
    assert Compare(one, Node(two), path, lookup) == CompareItems(one, two, 0, path, lookup);
  }

  /** From key `i` on, the walk of lines 86-94 ends on the first key `j`
      whose comparison does not match. */
  lemma {:induction false} MembersStopAt(one: Json, two: Operand, i: nat, j: nat, path: string, lookup: Lookup)
    requires i <= j < |Keys(one)|
    requires forall k | i <= k < j :: MemberStep(one, two, k, path, lookup).verdict == MATCH
    requires MemberStep(one, two, j, path, lookup).verdict != MATCH
    ensures exists t | Informational(t) && (lookup == OwnProperties ==> t == []) ::
      CompareMembers(one, two, i, path, lookup) == Prepend(t, MemberStep(one, two, j, path, lookup))
    decreases j - i
  {
    var last := MemberStep(one, two, j, path, lookup);
    MembersUnfold(one, two, i, path, lookup);
    if i == j {
      assert CompareMembers(one, two, i, path, lookup) == Prepend([], last);
    } else {
      var step := MemberStep(one, two, i, path, lookup);
      MembersStopAt(one, two, i + 1, j, path, lookup);
      var t :| Informational(t) && (lookup == OwnProperties ==> t == []) &&
        CompareMembers(one, two, i + 1, path, lookup) == Prepend(t, last);
      MemberStepTrailShape(one, two, i, path, lookup);
      if lookup == OwnProperties {
        OwnMemberStepTrail(one, two, i, path);
      }
      PrependPrepend(step.trail, t, last);
      assert Informational(step.trail + t);
      assert CompareMembers(one, two, i, path, lookup) == Prepend(step.trail + t, last);
    }
  }

  /** Between objects with as many keys, the first key of `one`, in its key
      order, whose comparison does not match decides the comparison; the keys
      after it are never compared. */
  lemma FirstMemberDecides(one: Json, two: Json, j: nat, path: string, lookup: Lookup)
    requires one.JObj? && two.JObj? && |one.members| == |two.members| && j < |one.members|
    requires forall k | 0 <= k < j :: MemberStep(one, Node(two), k, path, lookup).verdict == MATCH
    requires MemberStep(one, Node(two), j, path, lookup).verdict != MATCH
    ensures exists t | Informational(t) && (lookup == OwnProperties ==> t == []) ::
      Compare(one, Node(two), path, lookup) == Prepend(t, MemberStep(one, Node(two), j, path, lookup))
  {
    assert |Keys(one)| == |OperandKeys(Node(two))|;
    assert Compare(one, Node(two), path, lookup) == CompareRest(one, Node(two), path, lookup);
    MembersStopAt(one, Node(two), 0, j, path, lookup);
    var t :| Informational(t) && (lookup == OwnProperties ==> t == []) &&
      CompareMembers(one, Node(two), 0, path, lookup) == Prepend(t, MemberStep(one, Node(two), j, path, lookup));
    assert Compare(one, Node(two), path, lookup) == CompareMembers(one, Node(two), 0, path, lookup);
  }
}
