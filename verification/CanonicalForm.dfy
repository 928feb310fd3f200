/** What the canonical printer and the snapshot comparator decide. */
module CanonicalForm {
  import opened Texts
  import opened Json

  /** A value without the order of its array elements and object keys. */
  datatype Bag =
    | Atom(value: Json)
    | Items(items: multiset<Bag>)
    | Record(fields: map<Text, Bag>)

  /** A value without the order of its object keys. */
  datatype Meaning =
    | Plain(value: Json)
    | Sequence(items: seq<Meaning>)
    | Mapping(fields: map<Text, Meaning>)

  ghost function BagOf(x: Json): Bag
  {
    match x
    case Arr(items) => Items(multiset(seq(|items|, i requires 0 <= i < |items| => BagOf(items[i]))))
    case Obj(fields) => Record(BagFields(fields))
    case _ => Atom(x)
  }

  ghost function BagFields(fields: seq<Field>): map<Text, Bag>
  {
    if fields == [] then map[] else BagFields(fields[1..])[fields[0].key := BagOf(fields[0].value)]
  }

  ghost function MeaningOf(x: Json): Meaning
  {
    match x
    case Arr(items) => Sequence(seq(|items|, i requires 0 <= i < |items| => MeaningOf(items[i])))
    case Obj(fields) => Mapping(MeaningFields(fields))
    case _ => Plain(x)
  }

  ghost function MeaningFields(fields: seq<Field>): map<Text, Meaning>
  {
    if fields == [] then map[] else MeaningFields(fields[1..])[fields[0].key := MeaningOf(fields[0].value)]
  }

  ghost function Bags(items: seq<Json>): (bags: seq<Bag>)
    ensures |bags| == |items| && forall i :: 0 <= i < |items| ==> bags[i] == BagOf(items[i])
  {
    seq(|items|, i requires 0 <= i < |items| => BagOf(items[i]))
  }

  /** Every number in the value is finite, as in every text JSON can write. */
  predicate Finite(x: Json)
  {
    match x
    case Extreme(_) => false
    case Arr(items) => forall i :: 0 <= i < |items| ==> Finite(items[i])
    case Obj(fields) => forall i :: 0 <= i < |fields| ==> Finite(fields[i].value)
    case _ => true
  }

  // ------------------------------------------------------------------ multisets and maps

  lemma RemovedAt<A>(s: seq<A>, j: nat)
    requires j < |s|
    ensures multiset(s) == multiset(s[..j] + s[j + 1..]) + multiset{s[j]}
  {
    assert s == s[..j] + ([s[j]] + s[j + 1..]);
  }

  ghost predicate SameEqualities<A(!new), B(!new)>(p: seq<A>, q: seq<A>, u: seq<B>, v: seq<B>)
  {
    && |p| == |u| && |q| == |v|
    && forall i, j :: 0 <= i < |p| && 0 <= j < |q| ==> (p[i] == q[j] <==> u[i] == v[j])
  }

  lemma SmallerEqualities<A(!new), B(!new)>(p: seq<A>, q: seq<A>, u: seq<B>, v: seq<B>, j: nat)
    requires SameEqualities(p, q, u, v) && p != [] && j < |q|
    ensures SameEqualities(p[1..], q[..j] + q[j + 1..], u[1..], v[..j] + v[j + 1..])
  {
    var q', v' := q[..j] + q[j + 1..], v[..j] + v[j + 1..];
    forall i, k | 0 <= i < |p[1..]| && 0 <= k < |q'| ensures p[1..][i] == q'[k] <==> u[1..][i] == v'[k] {
      var l := if k < j then k else k + 1;
      assert q'[k] == q[l] && v'[k] == v[l];
    }
  }

  /** Two ways to label two lists that agree on which elements are the same agree on whether
      the lists are permutations of each other. */
  lemma {:induction false} LabelsAgree<A(!new), B(!new)>(p: seq<A>, q: seq<A>, u: seq<B>, v: seq<B>)
    requires SameEqualities(p, q, u, v) && multiset(p) == multiset(q)
    ensures multiset(u) == multiset(v)
  {
    assert |multiset(p)| == |p| && |multiset(q)| == |q|;
    if p != [] {
      assert p[0] in multiset(q);
      var j :| 0 <= j < |q| && q[j] == p[0];
      assert u[0] == v[j];
      FirstRemoved(p);
      FirstRemoved(u);
      RemovedAt(q, j);
      RemovedAt(v, j);
      SmallerEqualities(p, q, u, v, j);
      assert multiset(p[1..]) == multiset(p) - multiset{p[0]};
      assert multiset(q[..j] + q[j + 1..]) == multiset(q) - multiset{q[j]};
      hide SameEqualities;
      LabelsAgree(p[1..], q[..j] + q[j + 1..], u[1..], v[..j] + v[j + 1..]);
    }
  }

  lemma FirstRemoved<A>(s: seq<A>)
    requires s != []
    ensures multiset(s) == multiset(s[1..]) + multiset{s[0]}
  {
    assert s == [s[0]] + s[1..];
  }

  lemma {:induction false} BagFieldsAt(fields: seq<Field>)
    requires NoRepeatedKey(fields)
    ensures BagFields(fields).Keys == Elements(Keys(fields))
    ensures forall i :: 0 <= i < |fields| ==> fields[i].key in BagFields(fields) && BagFields(fields)[fields[i].key] == BagOf(fields[i].value)
  {
    if fields != [] {
      BagFieldsAt(fields[1..]);
      assert Keys(fields) == [fields[0].key] + Keys(fields[1..]);
      forall i | 0 <= i < |fields| ensures fields[i].key in BagFields(fields) && BagFields(fields)[fields[i].key] == BagOf(fields[i].value) {
        if i > 0 {
          assert fields[1..][i - 1] == fields[i];
        }
      }
    }
  }

  lemma {:induction false} MeaningFieldsAt(fields: seq<Field>)
    requires NoRepeatedKey(fields)
    ensures MeaningFields(fields).Keys == Elements(Keys(fields))
    ensures forall i :: 0 <= i < |fields| ==>
      fields[i].key in MeaningFields(fields) && MeaningFields(fields)[fields[i].key] == MeaningOf(fields[i].value)
  {
    if fields != [] {
      MeaningFieldsAt(fields[1..]);
      assert Keys(fields) == [fields[0].key] + Keys(fields[1..]);
      forall i | 0 <= i < |fields|
        ensures fields[i].key in MeaningFields(fields) && MeaningFields(fields)[fields[i].key] == MeaningOf(fields[i].value)
      {
        if i > 0 {
          assert fields[1..][i - 1] == fields[i];
        }
      }
    }
  }

  lemma {:induction false} FindAt(fields: seq<Field>, k: nat)
    requires NoRepeatedKey(fields) && k < |fields|
    ensures Find(PrintFields(fields), fields[k].key) == Canonical(fields[k].value)
  {
    if k > 0 {
      FindAt(fields[1..], k - 1);
      assert PrintFields(fields)[1..] == PrintFields(fields[1..]);
    }
  }

  lemma KeysDistinct(fields: seq<Field>)
    ensures NoRepeatedKey(fields) <==> NoDuplicates(Keys(fields))
  {
  }

  // ------------------------------------------------------------------ the printer decides the bag

  /** `canonical` prints the same text exactly for values equal up to the order of array
      elements and object keys, at every depth. */
  lemma {:induction false} CanonicalDecides(x: Json, y: Json)
    requires WellFormed(x) && WellFormed(y) && Finite(x) && Finite(y)
    ensures Canonical(x) == Canonical(y) <==> BagOf(x) == BagOf(y)
    decreases x, 2
  {
    CanonicalFirst(x);
    CanonicalFirst(y);
    if x.Arr? && y.Arr? {
      ArraysDecided(x.items, y.items);
    } else if x.Obj? && y.Obj? {
      ObjectsDecided(x.fields, y.fields);
    } else if x.Str? && y.Str? {
      if Canonical(x) == Canonical(y) {
        assert Quote(x.t) + [] == Quote(x.t) && Quote(y.t) + [] == Quote(y.t);
        QuoteUnique(x.t, y.t, [], []);
      }
    }
  }

  lemma {:induction false} ArraysDecided(items: seq<Json>, others: seq<Json>)
    requires WellFormed(Arr(items)) && WellFormed(Arr(others)) && Finite(Arr(items)) && Finite(Arr(others))
    ensures Canonical(Arr(items)) == Canonical(Arr(others)) <==> BagOf(Arr(items)) == BagOf(Arr(others))
    decreases items, 1
  {
    var p, q, u, v := PrintItems(items), PrintItems(others), Bags(items), Bags(others);
    CanonicalArr(items);
    CanonicalArr(others);
    BagOfArr(items);
    BagOfArr(others);
    SortDecidesPermutation(p, q);
    forall i, j | 0 <= i < |p| && 0 <= j < |q| ensures p[i] == q[j] <==> u[i] == v[j] {
      CanonicalDecides(items[i], others[j]);
    }
    if Canonical(Arr(items)) == Canonical(Arr(others)) {
      ArrayPartsSeparable(items, others);
      PartsEqual(ArrayParts(items), ArrayParts(others), OpenBracket, CloseBracket);
      LabelsAgree(p, q, u, v);
    }
    if multiset(u) == multiset(v) {
      LabelsAgree(u, v, p, q);
    }
  }

  lemma BagOfArr(items: seq<Json>)
    ensures BagOf(Arr(items)) == Items(multiset(Bags(items)))
  {
    assert Bags(items) == seq(|items|, i requires 0 <= i < |items| => BagOf(items[i]));
  }

  lemma PartsEqual(parts: seq<Text>, others: seq<Text>, open: Unit, close: Unit)
    requires AllSeparable(parts, others) && close in {CloseBracket, CloseBrace}
    requires [open] + Join(parts) + [close] == [open] + Join(others) + [close]
    ensures parts == others
  {
    assert ([open] + Join(parts) + [close])[1..] == Join(parts) + [close] + [];
    assert ([open] + Join(others) + [close])[1..] == Join(others) + [close] + [];
    JoinUnique(parts, others, close, [], []);
  }

  lemma {:induction false} ObjectsDecided(fields: seq<Field>, others: seq<Field>)
    requires WellFormed(Obj(fields)) && WellFormed(Obj(others)) && Finite(Obj(fields)) && Finite(Obj(others))
    ensures Canonical(Obj(fields)) == Canonical(Obj(others)) <==> BagOf(Obj(fields)) == BagOf(Obj(others))
    decreases fields, 1
  {
    CanonicalObj(fields);
    CanonicalObj(others);
    forall i, j | 0 <= i < |fields| && 0 <= j < |others|
      ensures Canonical(fields[i].value) == Canonical(others[j].value) <==> BagOf(fields[i].value) == BagOf(others[j].value)
    {
      CanonicalDecides(fields[i].value, others[j].value);
    }
    if Canonical(Obj(fields)) == Canonical(Obj(others)) {
      ObjectPartsSeparable(fields, others);
      PartsEqual(ObjectParts(fields), ObjectParts(others), OpenBrace, CloseBrace);
      EqualPartsEqualBags(fields, others);
    }
    if BagFields(fields) == BagFields(others) {
      EqualBagsEqualParts(fields, others);
    }
  }

  /** Corresponding fields print alike exactly when their bags are equal. */
  ghost predicate FieldsDecided(fields: seq<Field>, others: seq<Field>)
  {
    forall i, j :: 0 <= i < |fields| && 0 <= j < |others| ==>
      (Canonical(fields[i].value) == Canonical(others[j].value) <==> BagOf(fields[i].value) == BagOf(others[j].value))
  }

  lemma EqualEntries(key: Text, value: Text, otherKey: Text, otherValue: Text)
    requires Entry(key, value) == Entry(otherKey, otherValue)
    ensures key == otherKey && value == otherValue
  {
    assert Entry(key, value) == Quote(key) + ([Colon] + value) && Entry(otherKey, otherValue) == Quote(otherKey) + ([Colon] + otherValue);
    QuoteUnique(key, otherKey, [Colon] + value, [Colon] + otherValue);
    assert value == ([Colon] + value)[1..] && otherValue == ([Colon] + otherValue)[1..];
  }

  lemma EqualPartsEqualFields(fields: seq<Field>, others: seq<Field>)
    requires ObjectParts(fields) == ObjectParts(others)
    ensures Sort(Keys(fields)) == Sort(Keys(others))
    ensures forall k :: k in Sort(Keys(fields)) ==> Find(PrintFields(fields), k) == Find(PrintFields(others), k)
  {
    hide Find, Sort, Entry;
    var keys, keys' := Sort(Keys(fields)), Sort(Keys(others));
    forall i | 0 <= i < |keys| ensures keys[i] == keys'[i] && Find(PrintFields(fields), keys[i]) == Find(PrintFields(others), keys[i]) {
      assert ObjectParts(fields)[i] == ObjectParts(others)[i];
      EqualEntries(keys[i], Find(PrintFields(fields), keys[i]), keys'[i], Find(PrintFields(others), keys'[i]));
    }
  }

  /** Objects have the same keys exactly when their sorted keys are equal. */
  lemma SortedKeysDecide(fields: seq<Field>, others: seq<Field>)
    requires NoRepeatedKey(fields) && NoRepeatedKey(others)
    ensures Sort(Keys(fields)) == Sort(Keys(others)) <==> Elements(Keys(fields)) == Elements(Keys(others))
    ensures forall k :: k in Sort(Keys(fields)) <==> k in Elements(Keys(fields))
  {
    KeysDistinct(fields);
    KeysDistinct(others);
    SortDecidesPermutation(Keys(fields), Keys(others));
    NoDuplicatesCount(Keys(fields));
    NoDuplicatesCount(Keys(others));
    SortSorts(Keys(fields));
    forall k ensures k in Sort(Keys(fields)) <==> k in Elements(Keys(fields)) {
      assert k in Sort(Keys(fields)) <==> k in multiset(Sort(Keys(fields)));
      assert k in Keys(fields) <==> k in multiset(Keys(fields));
    }
    if Sort(Keys(fields)) == Sort(Keys(others)) {
      NoDuplicatesPermuted(Keys(fields), Keys(others));
    }
  }

  lemma EqualPartsEqualBags(fields: seq<Field>, others: seq<Field>)
    requires NoRepeatedKey(fields) && NoRepeatedKey(others) && FieldsDecided(fields, others)
    requires ObjectParts(fields) == ObjectParts(others)
    ensures BagFields(fields) == BagFields(others)
  {
    hide Find, Sort, Entry, BagFields, Canonical, BagOf, Entries;
    EqualPartsEqualFields(fields, others);
    SortedKeysDecide(fields, others);
    BagFieldsAt(fields);
    BagFieldsAt(others);
    forall k | k in BagFields(fields) ensures BagFields(fields)[k] == BagFields(others)[k] {
      var i :| 0 <= i < |fields| && Keys(fields)[i] == k;
      var j := KeyHeld(fields, others, i);
      FindAt(fields, i);
      FindAt(others, j);
    }
  }

  lemma EqualBagsEqualParts(fields: seq<Field>, others: seq<Field>)
    requires NoRepeatedKey(fields) && NoRepeatedKey(others) && FieldsDecided(fields, others)
    requires BagFields(fields) == BagFields(others)
    ensures ObjectParts(fields) == ObjectParts(others)
  {
    BagFieldsAt(fields);
    BagFieldsAt(others);
    EqualFieldsEqualParts(fields, others);
  }

  lemma EqualFieldsEqualParts(fields: seq<Field>, others: seq<Field>)
    requires NoRepeatedKey(fields) && NoRepeatedKey(others) && Elements(Keys(fields)) == Elements(Keys(others))
    requires forall i, j :: 0 <= i < |fields| && 0 <= j < |others| && fields[i].key == others[j].key ==>
      Canonical(fields[i].value) == Canonical(others[j].value)
    ensures ObjectParts(fields) == ObjectParts(others)
  {
    hide Find, Sort, Canonical;
    KeysDistinct(fields);
    KeysDistinct(others);
    NoDuplicatesCount(Keys(fields));
    NoDuplicatesCount(Keys(others));
    SortDecidesPermutation(Keys(fields), Keys(others));
    var keys := Sort(Keys(fields));
    SortKeepsElements(Keys(fields));
    forall i | 0 <= i < |keys| ensures ObjectParts(fields)[i] == ObjectParts(others)[i] {
      var k := keys[i];
      assert k in Elements(Keys(fields)) && k in Elements(Keys(others));
      var a :| 0 <= a < |fields| && Keys(fields)[a] == k;
      var b :| 0 <= b < |others| && Keys(others)[b] == k;
      FindAt(fields, a);
      FindAt(others, b);
    }
  }

  // ------------------------------------------------------------------ numbers that are not finite

  /** What `JSON.stringify` makes of numbers that are not finite, at every depth. */
  function Settle(x: Json): Json
  {
    match x
    case Extreme(_) => Null
    case Arr(items) => Arr(seq(|items|, i requires 0 <= i < |items| => Settle(items[i])))
    case Obj(fields) => Obj(seq(|fields|, i requires 0 <= i < |fields| => Field(fields[i].key, Settle(fields[i].value))))
    case _ => x
  }

  lemma {:induction false} SettlePrintsTheSame(x: Json)
    requires WellFormed(x)
    ensures WellFormed(Settle(x)) && Finite(Settle(x)) && Canonical(Settle(x)) == Canonical(x)
  {
    match x
    case Arr(items) =>
      var settled := Settle(x).items;
      forall i | 0 <= i < |items| ensures WellFormed(settled[i]) && Finite(settled[i]) && Canonical(settled[i]) == Canonical(items[i]) {
        SettlePrintsTheSame(items[i]);
      }
      CanonicalArr(items);
      CanonicalArr(settled);
      assert PrintItems(settled) == PrintItems(items);
    case Obj(fields) =>
      var settled := Settle(x).fields;
      forall i | 0 <= i < |fields|
        ensures settled[i].key == fields[i].key && WellFormed(settled[i].value) && Finite(settled[i].value)
        ensures Canonical(settled[i].value) == Canonical(fields[i].value)
      {
        SettlePrintsTheSame(fields[i].value);
      }
      CanonicalObj(fields);
      CanonicalObj(settled);
      assert PrintFields(settled) == PrintFields(fields);
      assert Keys(settled) == Keys(fields);
    case _ =>
  }

  /** The same for all values: the printer forgets the two orders, and which of null and the
      numbers that are not finite stood where, and nothing else. */
  lemma CanonicalDecidesSettled(x: Json, y: Json)
    requires WellFormed(x) && WellFormed(y)
    ensures Canonical(x) == Canonical(y) <==> BagOf(Settle(x)) == BagOf(Settle(y))
  {
    SettlePrintsTheSame(x);
    SettlePrintsTheSame(y);
    CanonicalDecides(Settle(x), Settle(y));
  }

  /** Finiteness is needed: an authorized condition `1e999` is met by null. */
  lemma OverflowPrintsAsNull(e: NonFinite)
    ensures Canonical(Arr([Extreme(e)])) == Canonical(Arr([Null])) && BagOf(Arr([Extreme(e)])) != BagOf(Arr([Null]))
  {
    CanonicalArr([Extreme(e)]);
    CanonicalArr([Null]);
    assert PrintItems([Extreme(e)]) == PrintItems([Null]);
    BagOfArr([Extreme(e)]);
    BagOfArr([Null]);
    assert Bags([Extreme(e)]) == [Atom(Extreme(e))] && Bags([Null]) == [Atom(Null)];
    assert Atom(Null) in multiset(Bags([Null])) && Atom(Null) !in multiset(Bags([Extreme(e)]));
  }

  // ------------------------------------------------------------------ snapshot values

  function ValueAt(fields: seq<Field>, key: Text): Option<Json>
  {
    if fields == [] then None else if fields[0].key == key then Some(fields[0].value) else ValueAt(fields[1..], key)
  }

  /** The object holds `value` under `key`. */
  ghost predicate Under(fields: seq<Field>, key: Text, value: Json)
  {
    exists i :: 0 <= i < |fields| && fields[i] == Field(key, value) && forall j :: 0 <= j < i ==> fields[j].key != key
  }

  lemma {:induction false} ValueAtExactly(fields: seq<Field>, key: Text, value: Json)
    ensures ValueAt(fields, key) == Some(value) <==> Under(fields, key, value)
    ensures ValueAt(fields, key).None? <==> forall i :: 0 <= i < |fields| ==> fields[i].key != key
  {
    if fields != [] {
      ValueAtExactly(fields[1..], key, value);
      if fields[0].key == key {
        if Under(fields, key, value) {
          var i :| 0 <= i < |fields| && fields[i] == Field(key, value) && forall j :: 0 <= j < i ==> fields[j].key != key;
          assert i == 0;
        }
      } else {
        UnderShifts(fields, key, value);
        assert forall i :: 0 < i < |fields| ==> fields[i] == fields[1..][i - 1];
      }
    }
  }

  lemma UnderShifts(fields: seq<Field>, key: Text, value: Json)
    requires fields != [] && fields[0].key != key
    ensures Under(fields, key, value) <==> Under(fields[1..], key, value)
  {
    var rest := fields[1..];
    if Under(rest, key, value) {
      var i :| 0 <= i < |rest| && rest[i] == Field(key, value) && forall j :: 0 <= j < i ==> rest[j].key != key;
      assert fields[i + 1] == Field(key, value);
      forall j | 0 <= j < i + 1 ensures fields[j].key != key {
        assert j > 0 ==> fields[j] == rest[j - 1];
      }
    }
    if Under(fields, key, value) {
      var i :| 0 <= i < |fields| && fields[i] == Field(key, value) && forall j :: 0 <= j < i ==> fields[j].key != key;
      assert i > 0 && rest[i - 1] == Field(key, value);
    }
  }

  /** `sameSnapshotValue`. */
  predicate Same(x: Json, y: Json)
    decreases x, 1
  {
    if x.Arr? || y.Arr? then
      x.Arr? && y.Arr? && |x.items| == |y.items| && forall i :: 0 <= i < |x.items| ==> Same(x.items[i], y.items[i])
    else if x.Obj? && y.Obj? then
      var keys, keys' := Sort(Keys(x.fields)), Sort(Keys(y.fields));
      |keys| == |keys'| && forall i :: 0 <= i < |keys| ==> keys[i] == keys'[i] && SameField(x.fields, y.fields, keys[i])
    else x == y && x != Extreme(NotANumber)
  }

  predicate SameField(fields: seq<Field>, others: seq<Field>, key: Text)
    decreases fields, 0
  {
    if fields == [] then false
    else if fields[0].key == key then ValueAt(others, key).Some? && Same(fields[0].value, ValueAt(others, key).value)
    else SameField(fields[1..], others, key)
  }

  predicate HasNaN(x: Json)
  {
    match x
    case Extreme(e) => e.NotANumber?
    case Arr(items) => exists i :: 0 <= i < |items| && HasNaN(items[i])
    case Obj(fields) => exists i :: 0 <= i < |fields| && HasNaN(fields[i].value)
    case _ => false
  }

  lemma {:induction false} ValueAtIndex(fields: seq<Field>, k: nat)
    requires NoRepeatedKey(fields) && k < |fields|
    ensures ValueAt(fields, fields[k].key) == Some(fields[k].value)
  {
    if k > 0 {
      ValueAtIndex(fields[1..], k - 1);
    }
  }

  lemma {:induction false} SameFieldAt(fields: seq<Field>, others: seq<Field>, k: nat, l: nat)
    requires NoRepeatedKey(fields) && NoRepeatedKey(others) && k < |fields| && l < |others| && fields[k].key == others[l].key
    ensures SameField(fields, others, fields[k].key) <==> Same(fields[k].value, others[l].value)
  {
    if k > 0 {
      SameFieldAt(fields[1..], others, k - 1, l);
    } else {
      ValueAtIndex(others, l);
    }
  }

  /** `sameSnapshotValue` decides equality up to the order of object keys, for values without
      NaN, and accepts no value that holds one. */
  lemma {:induction false} SameDecides(x: Json, y: Json)
    requires WellFormed(x) && WellFormed(y)
    ensures Same(x, y) <==> MeaningOf(x) == MeaningOf(y) && !HasNaN(x)
    decreases x, 1
  {
    if x.Arr? && y.Arr? {
      forall i | 0 <= i < |x.items| && i < |y.items|
        ensures Same(x.items[i], y.items[i]) <==> MeaningOf(x.items[i]) == MeaningOf(y.items[i]) && !HasNaN(x.items[i])
      {
        SameDecides(x.items[i], y.items[i]);
      }
      SameArrays(x.items, y.items);
    } else if x.Obj? && y.Obj? {
      forall i, j | 0 <= i < |x.fields| && 0 <= j < |y.fields| ensures SamePair(x.fields[i].value, y.fields[j].value) {
        SameDecides(x.fields[i].value, y.fields[j].value);
      }
      SameObjects(x.fields, y.fields);
    }
  }

  lemma SameArrays(items: seq<Json>, others: seq<Json>)
    requires forall i :: 0 <= i < |items| && i < |others| ==> SamePair(items[i], others[i])
    ensures SamePair(Arr(items), Arr(others))
  {
    var m, m' := MeaningOf(Arr(items)).items, MeaningOf(Arr(others)).items;
    if Same(Arr(items), Arr(others)) {
      assert forall i :: 0 <= i < |items| ==> SamePair(items[i], others[i]);
      assert m == m';
    }
    if m == m' && !HasNaN(Arr(items)) {
      forall i | 0 <= i < |items| ensures Same(items[i], others[i]) {
        assert m[i] == m'[i] && SamePair(items[i], others[i]);
      }
    }
  }

  ghost predicate SamePair(x: Json, y: Json)
  {
    Same(x, y) <==> MeaningOf(x) == MeaningOf(y) && !HasNaN(x)
  }

  /** Both lists hold the same keys, and fields under the same key satisfy `Same`. */
  ghost predicate FieldsMatch(fields: seq<Field>, others: seq<Field>)
  {
    && Elements(Keys(fields)) == Elements(Keys(others))
    && forall i, j :: 0 <= i < |fields| && 0 <= j < |others| && fields[i].key == others[j].key ==> Same(fields[i].value, others[j].value)
  }

  lemma MatchIsSame(fields: seq<Field>, others: seq<Field>)
    requires NoRepeatedKey(fields) && NoRepeatedKey(others) && FieldsMatch(fields, others)
    ensures Same(Obj(fields), Obj(others))
  {
    hide SameField;
    var keys := Sort(Keys(fields));
    SortedKeysDecide(fields, others);
    forall i | 0 <= i < |keys| ensures SameField(fields, others, keys[i]) {
      assert keys[i] in keys;
      var a :| 0 <= a < |fields| && Keys(fields)[a] == keys[i];
      var b := KeyHeld(fields, others, a);
      SameFieldAt(fields, others, a, b);
    }
  }

  lemma SameIsMatch(fields: seq<Field>, others: seq<Field>)
    requires NoRepeatedKey(fields) && NoRepeatedKey(others) && Same(Obj(fields), Obj(others))
    ensures FieldsMatch(fields, others)
  {
    hide SameField;
    var keys, keys' := Sort(Keys(fields)), Sort(Keys(others));
    assert keys == keys';
    SortedKeysDecide(fields, others);
    forall i, j | 0 <= i < |fields| && 0 <= j < |others| && fields[i].key == others[j].key ensures Same(fields[i].value, others[j].value) {
      assert Keys(fields)[i] in Elements(Keys(fields));
      var k :| 0 <= k < |keys| && keys[k] == fields[i].key;
      SameFieldAt(fields, others, i, j);
    }
  }

  lemma MatchMeansSame(fields: seq<Field>, others: seq<Field>)
    requires NoRepeatedKey(fields) && NoRepeatedKey(others) && FieldsMatch(fields, others)
    requires forall i, j :: 0 <= i < |fields| && 0 <= j < |others| ==> SamePair(fields[i].value, others[j].value)
    ensures MeaningFields(fields) == MeaningFields(others)
    ensures forall i :: 0 <= i < |fields| ==> !HasNaN(fields[i].value)
  {
    hide Same, MeaningFields, HasNaN;
    MeaningFieldsAt(fields);
    MeaningFieldsAt(others);
    forall k | k in MeaningFields(fields) ensures MeaningFields(fields)[k] == MeaningFields(others)[k] {
      var i :| 0 <= i < |fields| && Keys(fields)[i] == k;
      var j :| 0 <= j < |others| && Keys(others)[j] == k;
      assert SamePair(fields[i].value, others[j].value);
    }
    forall i | 0 <= i < |fields| ensures !HasNaN(fields[i].value) {
      var j := KeyHeld(fields, others, i);
      assert SamePair(fields[i].value, others[j].value);
    }
  }

  lemma SameObjects(fields: seq<Field>, others: seq<Field>)
    requires NoRepeatedKey(fields) && NoRepeatedKey(others)
    requires forall i, j :: 0 <= i < |fields| && 0 <= j < |others| ==> SamePair(fields[i].value, others[j].value)
    ensures SamePair(Obj(fields), Obj(others))
  {
    hide Same, MeaningFields;
    if Same(Obj(fields), Obj(others)) {
      SameIsMatch(fields, others);
    }
    MeaningFieldsAt(fields);
    MeaningFieldsAt(others);
    if FieldsMatch(fields, others) {
      MatchMeansSame(fields, others);
    }
    if MeaningFields(fields) == MeaningFields(others) && !HasNaN(Obj(fields)) {
      forall i, j | 0 <= i < |fields| && 0 <= j < |others| && fields[i].key == others[j].key ensures Same(fields[i].value, others[j].value) {
        assert SamePair(fields[i].value, others[j].value);
      }
      MatchIsSame(fields, others);
    }
  }

  /** On values without NaN the comparator is an equivalence. */
  lemma SameIsEquivalence(x: Json, y: Json, z: Json)
    requires WellFormed(x) && WellFormed(y) && WellFormed(z)
    ensures Same(x, x) <==> !HasNaN(x)
    ensures Same(x, y) ==> Same(y, x)
    ensures Same(x, y) && Same(y, z) ==> Same(x, z)
  {
    SameDecides(x, x);
    SameDecides(x, y);
    SameDecides(y, x);
    SameDecides(y, y);
    SameDecides(y, z);
    SameDecides(x, z);
    if Same(x, y) {
      MeaningTellsNaN(x, y);
    }
  }

  lemma {:induction false} MeaningTellsNaN(x: Json, y: Json)
    requires WellFormed(x) && WellFormed(y) && MeaningOf(x) == MeaningOf(y)
    ensures HasNaN(x) <==> HasNaN(y)
    decreases x
  {
    hide MeaningFields;
    if x.Arr? {
      var m, m' := MeaningOf(x).items, MeaningOf(y).items;
      forall i | 0 <= i < |x.items| ensures HasNaN(x.items[i]) <==> HasNaN(y.items[i]) {
        assert m[i] == m'[i];
        MeaningTellsNaN(x.items[i], y.items[i]);
      }
      assert |m| == |m'|;
    } else if x.Obj? {
      MeaningFieldsAt(x.fields);
      MeaningFieldsAt(y.fields);
      forall i, j | 0 <= i < |x.fields| && 0 <= j < |y.fields| && x.fields[i].key == y.fields[j].key
        ensures HasNaN(x.fields[i].value) <==> HasNaN(y.fields[j].value)
      {
        MeaningTellsNaN(x.fields[i].value, y.fields[j].value);
      }
      forall i | 0 <= i < |x.fields| && HasNaN(x.fields[i].value) ensures HasNaN(y) {
        var j := KeyHeld(x.fields, y.fields, i);
        assert HasNaN(y.fields[j].value);
      }
      forall j | 0 <= j < |y.fields| && HasNaN(y.fields[j].value) ensures HasNaN(x) {
        var i := KeyHeld(y.fields, x.fields, j);
        assert HasNaN(x.fields[i].value);
      }
    }
  }

  lemma KeyHeld(fields: seq<Field>, others: seq<Field>, i: nat) returns (j: nat)
    requires Elements(Keys(fields)) == Elements(Keys(others)) && i < |fields|
    ensures j < |others| && others[j].key == fields[i].key
  {
    assert Keys(fields)[i] in Elements(Keys(others));
    j :| 0 <= j < |others| && Keys(others)[j] == fields[i].key;
  }

  /** Values that mean the same print the same, so the comparator never accepts what the
      printer tells apart. */
  lemma {:induction false} MeaningDecidesCanonical(x: Json, y: Json)
    requires WellFormed(x) && WellFormed(y) && MeaningOf(x) == MeaningOf(y)
    ensures Canonical(x) == Canonical(y)
    decreases x
  {
    if x.Arr? {
      var m, m' := MeaningOf(x).items, MeaningOf(y).items;
      assert |m| == |m'|;
      forall i | 0 <= i < |x.items| ensures PrintItems(x.items)[i] == PrintItems(y.items)[i] {
        assert m[i] == m'[i];
        MeaningDecidesCanonical(x.items[i], y.items[i]);
      }
      CanonicalArr(x.items);
      CanonicalArr(y.items);
      assert PrintItems(x.items) == PrintItems(y.items);
    } else if x.Obj? {
      MeaningFieldsAt(x.fields);
      MeaningFieldsAt(y.fields);
      forall i, j | 0 <= i < |x.fields| && 0 <= j < |y.fields| && x.fields[i].key == y.fields[j].key
        ensures Canonical(x.fields[i].value) == Canonical(y.fields[j].value)
      {
        MeaningDecidesCanonical(x.fields[i].value, y.fields[j].value);
      }
      EqualFieldsEqualParts(x.fields, y.fields);
      CanonicalObj(x.fields);
      CanonicalObj(y.fields);
    }
  }

  lemma SameImpliesCanonical(x: Json, y: Json)
    requires WellFormed(x) && WellFormed(y) && Same(x, y)
    ensures Canonical(x) == Canonical(y)
  {
    SameDecides(x, y);
    MeaningDecidesCanonical(x, y);
  }

  /** The converse fails where it is meant to: the printer forgets the order of an array. */
  lemma CanonicalIsCoarser(a: Text, b: Text)
    requires a != b
    ensures Canonical(Arr([Str(a), Str(b)])) == Canonical(Arr([Str(b), Str(a)]))
    ensures !Same(Arr([Str(a), Str(b)]), Arr([Str(b), Str(a)]))
  {
    hide Quote, Sort, Same;
    var p, q := PrintItems([Str(a), Str(b)]), PrintItems([Str(b), Str(a)]);
    assert p == [Quote(a), Quote(b)] && q == [Quote(b), Quote(a)];
    assert multiset(p) == multiset(q);
    SortDecidesPermutation(p, q);
    CanonicalArr([Str(a), Str(b)]);
    CanonicalArr([Str(b), Str(a)]);
    SameIsAtHead(Str(a), Str(b));
  }

  lemma SameIsAtHead(a: Json, b: Json)
    requires a.Str? && b.Str? && a != b
    ensures !Same(Arr([a, b]), Arr([b, a]))
  {
    assert [a, b][0] == a && [b, a][0] == b;
  }
}
