/** `recursiveCompare` as the program runs it: two loops that return early,
    and `d` appending each diagnostic to the log the moment it is found. */
module DiffChecker {
  import opened JsonValues
  import opened Comparator

  /** What reaches `logDifference` of the diagnostics `t`: all of them when
      `LOG` is on, none when it is off. */
  function Emitted(enabled: bool, t: seq<Diagnostic>): seq<Diagnostic> {
    if enabled then t else []
  }

  /** Logging `s` and then `t` leaves the log as logging `s + t` does. */
  lemma EmittedAppend(enabled: bool, log: seq<Diagnostic>, s: seq<Diagnostic>, t: seq<Diagnostic>)
    ensures log + Emitted(enabled, s) + Emitted(enabled, t) == log + Emitted(enabled, s + t)
  {
    assert log + Emitted(enabled, s) + Emitted(enabled, t) == log + (Emitted(enabled, s) + Emitted(enabled, t));
  }

  /** The calls of `logDifference` so far; `enabled` is the `LOG` flag of line 4. */
  class DifferenceLog {
    const enabled: bool
    var records: seq<Diagnostic>

    constructor(enabled: bool)
      ensures this.enabled == enabled && records == []
    {
      this.enabled := enabled;
      records := [];
    }

    /** `d(message)` of line 22: `LOG && logDifference(...)`. */
    method Difference(d: Diagnostic)
      modifies this
      ensures records == old(records) + Emitted(enabled, [d])
    {
      if enabled {
        records := records + [d];
      }
    }
  }

  /** `recursiveCompare(objectOne, objectTwo, pathToNode)`, lines 21-97: the
      kind and length checks and the element loop of lines 24-66, then lines
      68-96. Returns what `Compare` returns and logs what it lists. */
  method RecursiveCompare(one: Json, two: Operand, path: string, lookup: Lookup, log: DifferenceLog) returns (v: Verdict)
    modifies log
    ensures v == Compare(one, two, path, lookup).verdict
    ensures log.records == old(log.records) + Emitted(log.enabled, Compare(one, two, path, lookup).trail)
    decreases one, 4
  {
    if one.JArr? || IsArray(two) {
      if one.JArr? && !IsArray(two) {
        log.Difference(Diagnostic(OneIsArray, path, one, two));
        return Returned(false);
      } else if IsArray(two) && !one.JArr? {
        log.Difference(Diagnostic(TwoIsArray, path, one, two));
        return Returned(false);
      }
      var arrayOne, arrayTwo := one.items, two.node.items;
      if |arrayOne| != |arrayTwo| {
        log.Difference(Diagnostic(LengthMismatch(|arrayOne|, |arrayTwo|), path, one, two));
        return Returned(false);
      }
      var itemsMatch := CompareElements(one, two.node, path, lookup, log);
      if itemsMatch != MATCH {
        return itemsMatch;
      }
      // equal arrays fall out of the array branch into lines 68-96
      ghost var items := CompareItems(one, two.node, 0, path, lookup);
      ghost var rest := CompareRest(one, two, path, lookup);
      assert Compare(one, two, path, lookup) == Prepend(items.trail, rest);
      v := CompareScalarsAndKeys(one, two, path, lookup, log);
      EmittedAppend(log.enabled, old(log.records), items.trail, rest.trail);
    } else {
      v := CompareScalarsAndKeys(one, two, path, lookup, log);
    }
  }

  /** The loop over the elements of two arrays of one length, lines 39-65. */
  method CompareElements(one: Json, two: Json, path: string, lookup: Lookup, log: DifferenceLog) returns (v: Verdict)
    requires one.JArr? && two.JArr? && |one.items| == |two.items|
    modifies log
    ensures v == CompareItems(one, two, 0, path, lookup).verdict
    ensures log.records == old(log.records) + Emitted(log.enabled, CompareItems(one, two, 0, path, lookup).trail)
    decreases one, 2
  {
    ghost var done: seq<Diagnostic> := [];
    var i := 0;
    while i < |one.items|
      invariant 0 <= i <= |one.items|
      invariant CompareItems(one, two, 0, path, lookup) == Prepend(done, CompareItems(one, two, i, path, lookup))
      invariant log.records == old(log.records) + Emitted(log.enabled, done)
    {
      ghost var step := ItemStep(one, two, i, path, lookup);
      ghost var later := CompareItems(one, two, i + 1, path, lookup);
      assert CompareItems(one, two, i, path, lookup) == if step.verdict != MATCH then step else Prepend(step.trail, later);
      var itemsMatch := CompareElement(one, two, i, path, lookup, log);
      EmittedAppend(log.enabled, old(log.records), done, step.trail);
      if itemsMatch != MATCH {
        return itemsMatch;
      }
      PrependPrepend(done, step.trail, later);
      done := done + step.trail;
      i := i + 1;
    }
    assert CompareItems(one, two, i, path, lookup) == Outcome(MATCH, []);
    assert done + [] == done;
    return MATCH;
  }

  /** One pass of the element loop, lines 40-64. Lines 63-64 are never
      reached: the test at lines 42-47 already takes every pair that is not
      two scalars, so the pair is either compared recursively or compared in
      place by strict equality. */
  method CompareElement(one: Json, two: Json, i: nat, path: string, lookup: Lookup, log: DifferenceLog) returns (v: Verdict)
    requires one.JArr? && two.JArr? && |one.items| == |two.items| && i < |one.items|
    modifies log
    ensures v == ItemStep(one, two, i, path, lookup).verdict
    ensures log.records == old(log.records) + Emitted(log.enabled, ItemStep(one, two, i, path, lookup).trail)
    decreases one, 1
  {
    var itemOne, itemTwo := one.items[i], two.items[i];
    if !IsScalar(itemOne) || !IsScalar(itemTwo) {
      v := RecursiveCompare(itemOne, Node(itemTwo), path + "[" + NatToString(i) + "]", lookup, log);
    } else if itemOne != itemTwo {
      log.Difference(Diagnostic(ItemMismatch(i, itemOne, itemTwo), path, one, Node(two)));
      v := Returned(false);
    } else {
      v := MATCH;
    }
  }

  /** Lines 68-96 of `recursiveCompare`: strict equality when either side is a
      scalar (with the message of line 70, which throws for an object owning
      `toString`), then `Object.keys` of both and the loop over the keys of `one`. */
  method CompareScalarsAndKeys(one: Json, two: Operand, path: string, lookup: Lookup, log: DifferenceLog) returns (v: Verdict)
    modifies log
    ensures v == CompareRest(one, two, path, lookup).verdict
    ensures log.records == old(log.records) + Emitted(log.enabled, CompareRest(one, two, path, lookup).trail)
    decreases one, 3
  {
    if IsScalar(one) || IsScalarOperand(two) {
      if two != Node(one) {
        if MessageThrows(one, two) {
          // the message of line 70 is built before `d` runs
          return ThrewTypeError;
        }
        log.Difference(Diagnostic(ValueMismatch, path, one, two));
        return Returned(false);
      }
      return MATCH;
    }
    if two.Undefined? {
      // Object.keys(undefined) at line 78
      return ThrewTypeError;
    }
    var keysOne, keysTwo := Keys(one), OperandKeys(two);
    if |keysOne| != |keysTwo| {
      log.Difference(Diagnostic(PropertyCountMismatch(keysOne, keysTwo), path, one, two));
      return Returned(false);
    }
    v := CompareKeys(one, two, path, lookup, log);
  }

  /** The loop over the keys of `objectOne`, lines 86-96, once both objects
      have as many keys. */
  method CompareKeys(one: Json, two: Operand, path: string, lookup: Lookup, log: DifferenceLog) returns (v: Verdict)
    modifies log
    ensures v == CompareMembers(one, two, 0, path, lookup).verdict
    ensures log.records == old(log.records) + Emitted(log.enabled, CompareMembers(one, two, 0, path, lookup).trail)
    decreases one, 2
  {
    var count := |Keys(one)|;
    ghost var done: seq<Diagnostic> := [];
    var i := 0;
    while i < count
      invariant 0 <= i <= count == |Keys(one)|
      invariant CompareMembers(one, two, 0, path, lookup) == Prepend(done, CompareMembers(one, two, i, path, lookup))
      invariant log.records == old(log.records) + Emitted(log.enabled, done)
    {
      var itemsMatch := CompareProperty(one, two, i, path, lookup, log);
      KeysAdvance(one, two, i, path, lookup, done, log.enabled, old(log.records), log.records, itemsMatch);
      if itemsMatch != MATCH {
        return itemsMatch;
      }
      done := done + MemberStep(one, two, i, path, lookup).trail;
      i := i + 1;
    }
    MembersEnd(one, two, path, lookup);
    assert CompareMembers(one, two, 0, path, lookup) == Outcome(MATCH, done) by {
      assert done + [] == done;
    }
    return MATCH;
  }

  /** After key `i`: a key that did not match ends the walk with the log
      complete; one that matched adds its records to those of the keys before it. */
  lemma KeysAdvance(one: Json, two: Operand, i: nat, path: string, lookup: Lookup, done: seq<Diagnostic>,
                    enabled: bool, base: seq<Diagnostic>, after: seq<Diagnostic>, v: Verdict)
    requires i < |Keys(one)|
    requires CompareMembers(one, two, 0, path, lookup) == Prepend(done, CompareMembers(one, two, i, path, lookup))
    requires v == MemberStep(one, two, i, path, lookup).verdict
    requires after == base + Emitted(enabled, done) + Emitted(enabled, MemberStep(one, two, i, path, lookup).trail)
    ensures var step := MemberStep(one, two, i, path, lookup);
      after == base + Emitted(enabled, done + step.trail) &&
      (v != MATCH ==> v == CompareMembers(one, two, 0, path, lookup).verdict &&
                      after == base + Emitted(enabled, CompareMembers(one, two, 0, path, lookup).trail)) &&
      (v == MATCH ==> CompareMembers(one, two, 0, path, lookup) ==
                      Prepend(done + step.trail, CompareMembers(one, two, i + 1, path, lookup)))
  {
    var step := MemberStep(one, two, i, path, lookup);
    MembersUnfold(one, two, i, path, lookup);
    EmittedAppend(enabled, base, done, step.trail);
    PrependPrepend(done, step.trail, CompareMembers(one, two, i + 1, path, lookup));
  }

  /** One pass of the key loop, lines 87-93: report a key `objectTwo` does not
      own, then compare the values under it all the same. */
  method CompareProperty(one: Json, two: Operand, i: nat, path: string, lookup: Lookup, log: DifferenceLog) returns (v: Verdict)
    requires i < |Keys(one)|
    modifies log
    ensures v == MemberStep(one, two, i, path, lookup).verdict
    ensures log.records == old(log.records) + Emitted(log.enabled, MemberStep(one, two, i, path, lookup).trail)
    decreases one, 1
  {
    var propName, keysTwo := Keys(one)[i], OperandKeys(two);
    ghost var before := log.records;
    if propName !in keysTwo {
      log.Difference(Diagnostic(PropertyMissing(propName, keysTwo), path, one, two));
    }
    ghost var noticed := log.records;
    var itemOne := ValueAt(one, i);
    var itemTwo := Get(two, propName, lookup);
    v := RecursiveCompare(itemOne, itemTwo, path + "." + propName, lookup, log);
    PropertyLogged(log.enabled, before, noticed, log.records, one, two, i, path, lookup);
  }

  /** The records of one pass of the key loop: the missing-key notice, if any,
      then those of the comparison of the values under the key. */
  lemma PropertyLogged(enabled: bool, before: seq<Diagnostic>, noticed: seq<Diagnostic>, after: seq<Diagnostic>,
                       one: Json, two: Operand, i: nat, path: string, lookup: Lookup)
    requires i < |Keys(one)|
    requires var key := Keys(one)[i];
      noticed == before + (if key in OperandKeys(two) then [] else Emitted(enabled, [Diagnostic(PropertyMissing(key, OperandKeys(two)), path, one, two)]))
    requires var key := Keys(one)[i];
      after == noticed + Emitted(enabled, Compare(ValueAt(one, i), Get(two, key, lookup), path + "." + key, lookup).trail)
    ensures after == before + Emitted(enabled, MemberStep(one, two, i, path, lookup).trail)
  {
    var key := Keys(one)[i];
    var child := Compare(ValueAt(one, i), Get(two, key, lookup), path + "." + key, lookup);
    var missing := MissingNotice(key, path, one, two);
    assert MemberStep(one, two, i, path, lookup) == Prepend(missing, child);
    assert noticed == before + Emitted(enabled, missing);
    EmittedAppend(enabled, before, missing, child.trail);
  }
}
