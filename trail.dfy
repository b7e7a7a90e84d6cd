/** What the diagnostics `recursiveCompare` logs look like, for every input. */
module Trail {
  import opened JsonValues
  import opened Comparator

  /** Every record is the non-returning "Prop missing from objectTwo" notice. */
  predicate Informational(t: seq<Diagnostic>) {
    forall k | 0 <= k < |t| :: t[k].reason.PropertyMissing?
  }

  /** A rejection ends on exactly one record that decided it, after nothing but
      missing-key notices; a match or a thrown `TypeError` logs only such notices. */
  predicate Fits(o: Outcome) {
    match o.verdict
    case Returned(same) =>
      if same then Informational(o.trail)
      else o.trail != [] && Informational(o.trail[..|o.trail| - 1]) && !o.trail[|o.trail| - 1].reason.PropertyMissing?
    case ThrewTypeError => Informational(o.trail)
  }

  lemma PrependFits(t: seq<Diagnostic>, o: Outcome)
    requires Informational(t) && Fits(o)
    ensures Fits(Prepend(t, o))
  {
    if o.verdict == Returned(false) {
      assert (t + o.trail)[..|t + o.trail| - 1] == t + o.trail[..|o.trail| - 1];
    }
  }

  /** One step of a walk keeps the trail well shaped, and a throw with
      nothing logged comes from the step or from the rest of the walk. */
  lemma StepFits(whole: Outcome, step: Outcome, rest: Outcome, cause: bool)
    requires whole == if step.verdict != MATCH then step else Prepend(step.trail, rest)
    requires Fits(step) && (step == Outcome(ThrewTypeError, []) ==> cause)
    requires step.verdict == MATCH ==> Fits(rest) && (rest == Outcome(ThrewTypeError, []) ==> cause)
    ensures Fits(whole) && (whole == Outcome(ThrewTypeError, []) ==> cause)
  {
    if step.verdict == MATCH {
      PrependFits(step.trail, rest);
      if whole == Outcome(ThrewTypeError, []) {
        assert |step.trail + rest.trail| == 0;
        assert rest == Outcome(ThrewTypeError, []);
      }
    }
  }

  /** Some object in `j`, at any depth, owns a `toString` key. */
  predicate HoldsToString(j: Json) {
    match j
    case JArr(s) => exists i | 0 <= i < |s| :: HoldsToString(s[i])
    case JObj(ms) => "toString" in MemberKeys(ms) || exists i | 0 <= i < |ms| :: HoldsToString(ms[i].value)
    case _ => false
  }

  /** The shape of the trail of any comparison, as written (either lookup); a
      `TypeError` with nothing logged comes only from `Object.keys(undefined)`
      on an object compared with `undefined` at the top, or from the message
      of line 70 for an object, somewhere in either tree, that owns `toString`. */
  lemma {:induction false} TrailShape(one: Json, two: Operand, path: string, lookup: Lookup)
    ensures Fits(Compare(one, two, path, lookup))
    ensures Compare(one, two, path, lookup) == Outcome(ThrewTypeError, []) ==>
      (two == Undefined && one.JObj?) || HoldsToString(one) || (two.Node? && HoldsToString(two.node))
    decreases one, 3
  {
    if one.JArr? && !IsArray(two) {
    } else if IsArray(two) && !one.JArr? {
    } else if one.JArr? {
      if |one.items| == |two.node.items| {
        ItemsTrailShape(one, two.node, 0, path, lookup);
        var items := CompareItems(one, two.node, 0, path, lookup);
        if items.verdict == MATCH {
          RestTrailShape(one, two, path, lookup);
          PrependFits(items.trail, CompareRest(one, two, path, lookup));
        }
      }
    } else {
      RestTrailShape(one, two, path, lookup);
    }
  }

  lemma {:induction false} RestTrailShape(one: Json, two: Operand, path: string, lookup: Lookup)
    ensures Fits(CompareRest(one, two, path, lookup))
    ensures CompareRest(one, two, path, lookup) == Outcome(ThrewTypeError, []) ==>
      (two == Undefined && !IsScalar(one)) || HoldsToString(one) || (two.Node? && HoldsToString(two.node))
    decreases one, 2
  {
    if !IsScalar(one) && !IsScalarOperand(two) && !two.Undefined? && |Keys(one)| == |OperandKeys(two)| {
      MembersTrailShape(one, two, 0, path, lookup);
    }
  }

  lemma {:induction false} ItemsTrailShape(one: Json, two: Json, i: nat, path: string, lookup: Lookup)
    requires one.JArr? && two.JArr? && |one.items| == |two.items| && i <= |one.items|
    ensures Fits(CompareItems(one, two, i, path, lookup))
    ensures CompareItems(one, two, i, path, lookup) == Outcome(ThrewTypeError, []) ==> HoldsToString(one) || HoldsToString(two)
    decreases one, 1, |one.items| - i
  {
    if i < |one.items| {
      ItemStepTrailShape(one, two, i, path, lookup);
      var step := ItemStep(one, two, i, path, lookup);
      if step.verdict == MATCH {
        ItemsTrailShape(one, two, i + 1, path, lookup);
      }
      StepFits(CompareItems(one, two, i, path, lookup), step, CompareItems(one, two, i + 1, path, lookup),
               HoldsToString(one) || HoldsToString(two));
    }
  }

  lemma {:induction false} ItemStepTrailShape(one: Json, two: Json, i: nat, path: string, lookup: Lookup)
    requires one.JArr? && two.JArr? && |one.items| == |two.items| && i < |one.items|
    ensures Fits(ItemStep(one, two, i, path, lookup))
    ensures ItemStep(one, two, i, path, lookup) == Outcome(ThrewTypeError, []) ==> HoldsToString(one) || HoldsToString(two)
    decreases one, 0
  {
    var itemOne, itemTwo := one.items[i], two.items[i];
    if !IsScalar(itemOne) || !IsScalar(itemTwo) {
      TrailShape(itemOne, Node(itemTwo), path + "[" + NatToString(i) + "]", lookup);
    }
  }

  lemma {:induction false} MembersTrailShape(one: Json, two: Operand, i: nat, path: string, lookup: Lookup)
    requires i <= |Keys(one)|
    ensures Fits(CompareMembers(one, two, i, path, lookup))
    ensures CompareMembers(one, two, i, path, lookup) == Outcome(ThrewTypeError, []) ==>
      HoldsToString(one) || (two.Node? && HoldsToString(two.node))
    decreases one, 1, |Keys(one)| - i
  {
    if i < |Keys(one)| {
      MemberStepTrailShape(one, two, i, path, lookup);
      MembersUnfold(one, two, i, path, lookup);
      var step := MemberStep(one, two, i, path, lookup);
      if step.verdict == MATCH {
        MembersTrailShape(one, two, i + 1, path, lookup);
      }
      StepFits(CompareMembers(one, two, i, path, lookup), step, CompareMembers(one, two, i + 1, path, lookup),
               HoldsToString(one) || (two.Node? && HoldsToString(two.node)));
    }
  }

  lemma {:induction false} MemberStepTrailShape(one: Json, two: Operand, i: nat, path: string, lookup: Lookup)
    requires i < |Keys(one)|
    ensures Fits(MemberStep(one, two, i, path, lookup))
    ensures MemberStep(one, two, i, path, lookup) == Outcome(ThrewTypeError, []) ==>
      HoldsToString(one) || (two.Node? && HoldsToString(two.node))
    decreases one, 0
  {
    var key := Keys(one)[i];
    var missing := MissingNotice(key, path, one, two);
    GetResolves(two, key, lookup);
    TrailShape(ValueAt(one, i), Get(two, key, lookup), path + "." + key, lookup);
    PrependFits(missing, Compare(ValueAt(one, i), Get(two, key, lookup), path + "." + key, lookup));
  }

  /** A value compared with the `undefined` of a missing key: an array fails
      the kind check (lines 25-27), a scalar the strict equality (69-71), and an
      object throws at `Object.keys(undefined)` (78) without logging. */
  lemma AgainstUndefined(one: Json, path: string, lookup: Lookup)
    ensures Compare(one, Undefined, path, lookup) ==
      if one.JArr? then Reject(OneIsArray, path, one, Undefined)
      else if IsScalar(one) then Reject(ValueMismatch, path, one, Undefined)
      else Outcome(ThrewTypeError, [])
  {
  }

  /** A match logs nothing, and no outcome logs more than `n` records. */
  predicate Bounded(o: Outcome, n: nat) {
    (o.verdict == MATCH ==> o.trail == []) && |o.trail| <= n
  }

  /** A walk step that keeps within two records, before a rest that does. */
  lemma StepBounded(whole: Outcome, step: Outcome, rest: Outcome)
    requires whole == if step.verdict != MATCH then step else Prepend(step.trail, rest)
    requires Bounded(step, 2) && (step.verdict == MATCH ==> Bounded(rest, 2))
    ensures Bounded(whole, 2)
  {
    if step.verdict == MATCH {
      assert step.trail == [] && [] + rest.trail == rest.trail;
    }
  }

  /** The key walk from key `i` on is bounded when key `i` is and, if key `i`
      matched, so is the walk after it. */
  lemma MembersBounded(one: Json, two: Operand, i: nat, path: string, lookup: Lookup)
    requires i < |Keys(one)|
    requires Bounded(MemberStep(one, two, i, path, lookup), 2)
    requires MemberStep(one, two, i, path, lookup).verdict == MATCH ==> Bounded(CompareMembers(one, two, i + 1, path, lookup), 2)
    ensures Bounded(CompareMembers(one, two, i, path, lookup), 2)
  {
    MembersUnfold(one, two, i, path, lookup);
    StepBounded(CompareMembers(one, two, i, path, lookup), MemberStep(one, two, i, path, lookup), CompareMembers(one, two, i + 1, path, lookup));
  }

  /** With the corrected lookup a missing key makes the walk fail at once, so
      a match logs nothing and a failure logs at most the missing-key notice
      and the one record that decided it. */
  lemma {:induction false} OwnTrail(one: Json, two: Operand, path: string)
    ensures Bounded(Compare(one, two, path, OwnProperties), if two.Undefined? then 1 else 2)
    decreases one, 3
  {
    if one.JArr? && !IsArray(two) {
    } else if IsArray(two) && !one.JArr? {
    } else if one.JArr? {
      if |one.items| == |two.node.items| {
        OwnItemsTrail(one, two.node, 0, path);
        if CompareItems(one, two.node, 0, path, OwnProperties).verdict == MATCH {
          OwnRestTrail(one, two, path);
        }
      }
    } else {
      OwnRestTrail(one, two, path);
    }
  }

  lemma {:induction false} OwnRestTrail(one: Json, two: Operand, path: string)
    ensures Bounded(CompareRest(one, two, path, OwnProperties), if two.Undefined? then 1 else 2)
    decreases one, 2
  {
    if !IsScalar(one) && !IsScalarOperand(two) && !two.Undefined? && |Keys(one)| == |OperandKeys(two)| {
      OwnMembersTrail(one, two, 0, path);
    }
  }

  lemma {:induction false} OwnItemsTrail(one: Json, two: Json, i: nat, path: string)
    requires one.JArr? && two.JArr? && |one.items| == |two.items| && i <= |one.items|
    ensures Bounded(CompareItems(one, two, i, path, OwnProperties), 2)
    decreases one, 1, |one.items| - i
  {
    if i < |one.items| {
      var itemOne, itemTwo := one.items[i], two.items[i];
      if !IsScalar(itemOne) || !IsScalar(itemTwo) {
        OwnTrail(itemOne, Node(itemTwo), path + "[" + NatToString(i) + "]");
      }
      if ItemStep(one, two, i, path, OwnProperties).verdict == MATCH {
        OwnItemsTrail(one, two, i + 1, path);
      }
    }
  }

  lemma {:induction false} OwnMembersTrail(one: Json, two: Operand, i: nat, path: string)
    requires i <= |Keys(one)|
    ensures Bounded(CompareMembers(one, two, i, path, OwnProperties), 2)
    decreases one, 1, |Keys(one)| - i
  {
    if i < |Keys(one)| {
      OwnMemberStepTrail(one, two, i, path);
      OwnMembersTrail(one, two, i + 1, path);
      MembersBounded(one, two, i, path, OwnProperties);
    } else {
      MembersEnd(one, two, path, OwnProperties);
    }
  }

  lemma {:induction false} OwnMemberStepTrail(one: Json, two: Operand, i: nat, path: string)
    requires i < |Keys(one)|
    ensures Bounded(MemberStep(one, two, i, path, OwnProperties), 2)
    decreases one, 0
  {
    var key := Keys(one)[i];
    var item := Get(two, key, OwnProperties);
    OwnTrail(ValueAt(one, i), item, path + "." + key);
    if key !in OperandKeys(two) {
      GetResolves(two, key, OwnProperties);
      AgainstUndefined(ValueAt(one, i), path + "." + key, OwnProperties);
    }
  }
}
