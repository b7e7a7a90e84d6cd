/** Equal arrays do not return after the element loop (line 65): they go on
    to the property walk of lines 77-96, which compares every element again
    under the path `path.i`. The verdict never depends on the path, so that
    second walk agrees with the first one. */
module FallThrough {
  import opened JsonValues
  import opened Comparator

  /** The path only labels the diagnostics: it never changes the verdict. */
  lemma {:induction false} VerdictPathFree(one: Json, two: Operand, path: string, path': string, lookup: Lookup)
    ensures Compare(one, two, path, lookup).verdict == Compare(one, two, path', lookup).verdict
    decreases one, 3
  {
    if one.JArr? && IsArray(two) && |one.items| == |two.node.items| {
      ItemsPathFree(one, two.node, 0, path, path', lookup);
    }
    RestPathFree(one, two, path, path', lookup);
  }

  lemma {:induction false} RestPathFree(one: Json, two: Operand, path: string, path': string, lookup: Lookup)
    ensures CompareRest(one, two, path, lookup).verdict == CompareRest(one, two, path', lookup).verdict
    decreases one, 2
  {
    if !IsScalar(one) && !IsScalarOperand(two) && !two.Undefined? && |Keys(one)| == |OperandKeys(two)| {
      MembersPathFree(one, two, 0, path, path', lookup);
    }
  }

  lemma {:induction false} ItemsPathFree(one: Json, two: Json, i: nat, path: string, path': string, lookup: Lookup)
    requires one.JArr? && two.JArr? && |one.items| == |two.items| && i <= |one.items|
    ensures CompareItems(one, two, i, path, lookup).verdict == CompareItems(one, two, i, path', lookup).verdict
    decreases one, 1, |one.items| - i
  {
    if i < |one.items| {
      var itemOne, itemTwo := one.items[i], two.items[i];
      if !IsScalar(itemOne) || !IsScalar(itemTwo) {
        VerdictPathFree(itemOne, Node(itemTwo), path + "[" + NatToString(i) + "]", path' + "[" + NatToString(i) + "]", lookup);
      }
      ItemsPathFree(one, two, i + 1, path, path', lookup);
    }
  }

  lemma {:induction false} MembersPathFree(one: Json, two: Operand, i: nat, path: string, path': string, lookup: Lookup)
    requires i <= |Keys(one)|
    ensures CompareMembers(one, two, i, path, lookup).verdict == CompareMembers(one, two, i, path', lookup).verdict
    decreases one, 1, |Keys(one)| - i
  {
    if i < |Keys(one)| {
      var key := Keys(one)[i];
      VerdictPathFree(ValueAt(one, i), Get(two, key, lookup), path + "." + key, path' + "." + key, lookup);
      assert MemberStep(one, two, i, path, lookup).verdict == MemberStep(one, two, i, path', lookup).verdict;
      MembersPathFree(one, two, i + 1, path, path', lookup);
      MembersVerdict(one, two, i, path, lookup);
      MembersVerdict(one, two, i, path', lookup);
    }
  }

  /** An element walk that matches from element `i` on matched at every element after it. */
  lemma {:induction false} ItemsMatchAt(one: Json, two: Json, i: nat, j: nat, path: string, lookup: Lookup)
    requires one.JArr? && two.JArr? && |one.items| == |two.items| && i <= j < |one.items|
    requires CompareItems(one, two, i, path, lookup).verdict == MATCH
    ensures ItemStep(one, two, j, path, lookup).verdict == MATCH
    decreases j - i
  {
    var step := ItemStep(one, two, i, path, lookup);
    assert CompareItems(one, two, i, path, lookup) ==
      if step.verdict != MATCH then step else Prepend(step.trail, CompareItems(one, two, i + 1, path, lookup));
    if i < j {
      ItemsMatchAt(one, two, i + 1, j, path, lookup);
    }
  }

  /** The property `"i"` of an array is its element `i`. */
  lemma ArrayKeyAt(a: Json, i: nat)
    requires a.JArr? && i < |a.items|
    ensures Keys(a)[i] == NatToString(i)
    ensures IndexOf(Keys(a), NatToString(i)) == i
  {
    var k := IndexOf(Keys(a), NatToString(i));
    if k < i {
      NatToStringInjective(k, i);
    }
  }

  /** In the property walk over two arrays of one length, key `i` compares
      element `i` with element `i`, under `path.i` and with no notice: its
      outcome, trail included, is that comparison's. */
  lemma ArrayMemberStep(one: Json, two: Json, i: nat, path: string, lookup: Lookup)
    requires one.JArr? && two.JArr? && |one.items| == |two.items| && i < |one.items|
    ensures MemberStep(one, Node(two), i, path, lookup) ==
      Compare(one.items[i], Node(two.items[i]), path + "." + NatToString(i), lookup)
  {
    ArrayKeyAt(one, i);
    ArrayKeyAt(two, i);
    assert Get(Node(two), NatToString(i), lookup) == Node(two.items[i]);
    assert MissingNotice(NatToString(i), path, one, Node(two)) == [];
  }

  /** An element pair that matched in the element loop matches again in the property walk. */
  lemma SecondWalkStep(one: Json, two: Json, i: nat, path: string, lookup: Lookup)
    requires one.JArr? && two.JArr? && |one.items| == |two.items| && i < |one.items|
    requires ItemStep(one, two, i, path, lookup).verdict == MATCH
    ensures MemberStep(one, Node(two), i, path, lookup).verdict == MATCH
  {
    var itemOne, itemTwo := one.items[i], two.items[i];
    ArrayMemberStep(one, two, i, path, lookup);
    if !IsScalar(itemOne) || !IsScalar(itemTwo) {
      VerdictPathFree(itemOne, Node(itemTwo), path + "[" + NatToString(i) + "]", path + "." + NatToString(i), lookup);
    } else {
      assert Compare(itemOne, Node(itemTwo), path + "." + NatToString(i), lookup) == Outcome(MATCH, []);
    }
  }

  /** Elements that matched in the element loop match again in the property walk. */
  lemma {:induction false} SecondWalkMatches(one: Json, two: Json, i: nat, path: string, lookup: Lookup)
    requires one.JArr? && two.JArr? && |one.items| == |two.items| && i <= |one.items|
    requires CompareItems(one, two, 0, path, lookup).verdict == MATCH
    ensures CompareMembers(one, Node(two), i, path, lookup).verdict == MATCH
    decreases |one.items| - i
  {
    if i < |one.items| {
      ItemsMatchAt(one, two, 0, i, path, lookup);
      SecondWalkStep(one, two, i, path, lookup);
      SecondWalkMatches(one, two, i + 1, path, lookup);
      MembersVerdict(one, Node(two), i, path, lookup);
    }
  }

  /** Between arrays of one length, the fall-through into lines 68-96 never
      changes the verdict: it is that of the element loop. */
  lemma ArrayVerdictIsItems(one: Json, two: Json, path: string, lookup: Lookup)
    requires one.JArr? && two.JArr? && |one.items| == |two.items|
    ensures CompareItems(one, two, 0, path, lookup).verdict == MATCH ==>
      CompareRest(one, Node(two), path, lookup).verdict == MATCH
    ensures Compare(one, Node(two), path, lookup).verdict == CompareItems(one, two, 0, path, lookup).verdict
  {
    if CompareItems(one, two, 0, path, lookup).verdict == MATCH {
      SecondWalkMatches(one, two, 0, path, lookup);
      assert CompareRest(one, Node(two), path, lookup) == CompareMembers(one, Node(two), 0, path, lookup);
    }
  }
}
