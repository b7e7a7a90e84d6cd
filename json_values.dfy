/** The value trees the comparator walks: what `JSON.parse` hands to
    `recursiveCompare`, and the structural equality it is meant to decide. */
module JsonValues {

  /** A JSON node. Numbers take part only in strict equality, so they are
      kept by value; an object lists its own members in `Object.keys` order. */
  datatype Json =
    | JNull
    | JBool(b: bool)
    | JNum(n: real)
    | JStr(s: string)
    | JArr(items: seq<Json>)
    | JObj(members: seq<Member>)

  datatype Member = Member(key: string, value: Json)

  /** `typeof v` is "string", "number" or "boolean", or `v === null`. */
  predicate IsScalar(j: Json) {
    j.JNull? || j.JBool? || j.JNum? || j.JStr?
  }

  function DigitChar(d: nat): (c: char)
    requires d < 10
    ensures '0' <= c <= '9'
    ensures c as int - '0' as int == d
  {
    ('0' as int + d) as char
  }

  /** The decimal text of an index, as `${i}` renders it. */
  function NatToString(n: nat): (s: string)
    ensures |s| >= 1
    ensures (|s| == 1) == (n < 10)
    decreases n
  {
    if n < 10 then [DigitChar(n)] else NatToString(n / 10) + [DigitChar(n % 10)]
  }

  /** Two indices never print the same, so the property names of an array are distinct. */
  lemma {:induction false} NatToStringInjective(m: nat, n: nat)
    requires NatToString(m) == NatToString(n)
    ensures m == n
    decreases m
  {
    var sm, sn := NatToString(m), NatToString(n);
    if m >= 10 {
      assert n >= 10;
      assert sm[|sm| - 1] == DigitChar(m % 10);
      assert sn[|sn| - 1] == DigitChar(n % 10);
      assert sm[..|sm| - 1] == NatToString(m / 10);
      assert sn[..|sn| - 1] == NatToString(n / 10);
      NatToStringInjective(m / 10, n / 10);
    } else {
      assert sm[0] == DigitChar(m) && sn[0] == DigitChar(n);
    }
  }

  /** `Object.keys` of an object: its member names in order. */
  function MemberKeys(ms: seq<Member>): (keys: seq<string>)
    ensures |keys| == |ms|
    ensures forall i | 0 <= i < |ms| :: keys[i] == ms[i].key
  {
    if ms == [] then [] else [ms[0].key] + MemberKeys(ms[1..])
  }

  /** `Object.keys` of an array of length `n`: "0", "1", ..., in order. */
  function IndexKeys(n: nat): (keys: seq<string>)
    ensures |keys| == n
    ensures forall i | 0 <= i < n :: keys[i] == NatToString(i)
  {
    if n == 0 then [] else IndexKeys(n - 1) + [NatToString(n - 1)]
  }

  /** `Object.keys(j)` for the nodes it is applied to: arrays and objects. */
  function Keys(j: Json): seq<string> {
    match j
    case JArr(s) => IndexKeys(|s|)
    case JObj(ms) => MemberKeys(ms)
    case _ => []
  }

  /** The own property `Keys(j)[i]` of `j`. */
  function ValueAt(j: Json, i: nat): Json
    requires i < |Keys(j)|
  {
    match j
    case JArr(s) => s[i]
    case JObj(ms) => ms[i].value
  }

  /** Position of the first occurrence of `k`, or `|keys|` when it is absent. */
  function IndexOf(keys: seq<string>, k: string): (i: nat)
    ensures i <= |keys|
    ensures i < |keys| <==> k in keys
    ensures i < |keys| ==> keys[i] == k
    ensures forall j | 0 <= j < i :: keys[j] != k
  {
    if keys == [] then 0
    else if keys[0] == k then 0
    else 1 + IndexOf(keys[1..], k)
  }

  predicate DistinctKeys(keys: seq<string>) {
    forall i, k | 0 <= i < k < |keys| :: keys[i] != keys[k]
  }

  /** What every parsed document satisfies: no object repeats a key. */
  predicate WellFormed(j: Json) {
    match j
    case JArr(s) => forall i | 0 <= i < |s| :: WellFormed(s[i])
    case JObj(ms) => DistinctKeys(MemberKeys(ms)) && forall i | 0 <= i < |ms| :: WellFormed(ms[i].value)
    case _ => true
  }

  lemma KeysDistinct(j: Json)
    requires WellFormed(j)
    ensures DistinctKeys(Keys(j))
  {
    if j.JArr? {
      var keys := Keys(j);
      forall i, k | 0 <= i < k < |keys| ensures keys[i] != keys[k] {
        if keys[i] == keys[k] {
          NatToStringInjective(i, k);
        }
      }
    }
  }

  /** With distinct keys, the first occurrence of a key is its only one. */
  lemma IndexOfDistinct(keys: seq<string>, k: nat)
    requires DistinctKeys(keys) && k < |keys|
    ensures IndexOf(keys, keys[k]) == k
  {
  }

  /** The value an object with members `ms` holds under `key`: that of the
      first member so named. */
  function MemberValue(ms: seq<Member>, key: string): Json
    requires key in MemberKeys(ms)
  {
    ms[IndexOf(MemberKeys(ms), key)].value
  }

  /** Structural equality as the comparator promises it: the same kind at every
      position, arrays of equal length equal element by element, objects with as
      many keys where every key of `a` is a key of `b` holding an equal value,
      and scalars equal by value and type. */
  predicate Same(a: Json, b: Json)
  {
    match a
    case JArr(s) =>
      b.JArr? && |s| == |b.items| &&
      forall i | 0 <= i < |s| :: Same(s[i], b.items[i])
    case JObj(ms) =>
      b.JObj? && |ms| == |b.members| &&
      forall i | 0 <= i < |ms| ::
        ms[i].key in MemberKeys(b.members) && Same(ms[i].value, MemberValue(b.members, ms[i].key))
    case _ => a == b
  }

  lemma {:induction false} SameReflexive(a: Json)
    requires WellFormed(a)
    ensures Same(a, a)
    decreases a
  {
    match a
    case JArr(s) =>
      forall i | 0 <= i < |s| ensures Same(s[i], s[i]) {
        SameReflexive(s[i]);
      }
    case JObj(ms) =>
      forall i | 0 <= i < |ms| ensures ms[i].key in MemberKeys(ms) && Same(ms[i].value, MemberValue(ms, ms[i].key)) {
        assert MemberKeys(ms)[i] == ms[i].key;
        IndexOfDistinct(MemberKeys(ms), i);
        SameReflexive(ms[i].value);
      }
    case _ =>
  }

  /** The set of names in a key list. */
  function KeySet(keys: seq<string>): (names: set<string>)
    ensures forall k :: k in names <==> k in keys
  {
    set k | k in keys
  }

  /** Distinct names make a set with as many elements as the list. */
  lemma {:induction false} DistinctKeySetSize(keys: seq<string>)
    requires DistinctKeys(keys)
    ensures |KeySet(keys)| == |keys|
  {
    if keys != [] {
      var rest := keys[1..];
      assert DistinctKeys(rest) by {
        forall i, k | 0 <= i < k < |rest| ensures rest[i] != rest[k] {
          assert rest[i] == keys[i + 1] && rest[k] == keys[k + 1];
        }
      }
      DistinctKeySetSize(rest);
      assert KeySet(keys) == {keys[0]} + KeySet(rest);
      assert keys[0] !in KeySet(rest);
    }
  }

  /** Two distinct key lists of one length, the first inside the second, name the same keys. */
  lemma SameKeySets(a: seq<string>, b: seq<string>)
    requires DistinctKeys(a) && DistinctKeys(b) && |a| == |b|
    requires forall i | 0 <= i < |a| :: a[i] in b
    ensures forall k :: k in a <==> k in b
  {
    DistinctKeySetSize(a);
    DistinctKeySetSize(b);
    var sa, sb := KeySet(a), KeySet(b);
    if sa != sb {
      var extra :| extra in sb && extra !in sa;
      SubsetSize(sa, sb - {extra});
    }
  }

  lemma {:induction false} SubsetSize(small: set<string>, large: set<string>)
    requires small <= large
    ensures |small| <= |large|
    decreases small
  {
    if small != {} {
      var x :| x in small;
      SubsetSize(small - {x}, large - {x});
    }
  }

  /** Equal objects have the same own keys. */
  lemma SameKeys(a: Json, b: Json)
    requires WellFormed(a) && WellFormed(b) && Same(a, b) && !IsScalar(a)
    ensures forall k :: k in Keys(a) <==> k in Keys(b)
  {
    KeysDistinct(a);
    KeysDistinct(b);
    if a.JObj? {
      forall i | 0 <= i < |Keys(a)| ensures Keys(a)[i] in Keys(b) {
        assert Keys(a)[i] == a.members[i].key;
      }
    }
    SameKeySets(Keys(a), Keys(b));
  }

  /** Equality of trees does not depend on the order they are given in. */
  lemma {:induction false} SameSymmetric(a: Json, b: Json)
    requires WellFormed(a) && WellFormed(b) && Same(a, b)
    ensures Same(b, a)
    decreases a
  {
    match a
    case JArr(s) =>
      forall i | 0 <= i < |s| ensures Same(b.items[i], s[i]) {
        SameSymmetric(s[i], b.items[i]);
      }
    case JObj(ms) =>
      SameKeys(a, b);
      var keysA, keysB := MemberKeys(ms), MemberKeys(b.members);
      forall k | 0 <= k < |b.members|
        ensures b.members[k].key in keysA && Same(b.members[k].value, MemberValue(ms, b.members[k].key))
      {
        var key := b.members[k].key;
        assert keysB[k] == key;
        assert key in Keys(b) && Keys(a) == keysA;
        var p := IndexOf(keysA, key);
        assert ms[p].key == key;
        IndexOfDistinct(keysB, k);
        SameSymmetric(ms[p].value, b.members[k].value);
      }
    case _ =>
  }
}
