/** Canonical texts decide equality: same text, same value, whatever the order of keys. */
module CanonicalEquality {
  import opened Paths
  import opened Canonical

  /** Equality of JSON values, which does not look at the order of keys. */
  predicate SameValue(a: Json, b: Json)
    decreases a, 1
  {
    match a
    case Array(x) => b.Array? && |x| == |b.items| && forall i | 0 <= i < |x| :: SameValue(x[i], b.items[i])
    case Object(x) =>
      && b.Object?
      && (forall i | 0 <= i < |x| :: Found(a, i, b))
      && (forall j | 0 <= j < |b.fields| :: FoundBack(a, b, j))
    case _ => a == b
  }

  predicate Found(a: Json, i: nat, b: Json)
    requires a.Object? && b.Object? && i < |a.fields|
    decreases a, 0
  {
    exists j | 0 <= j < |b.fields| :: a.fields[i].0 == b.fields[j].0 && SameValue(a.fields[i].1, b.fields[j].1)
  }

  predicate FoundBack(a: Json, b: Json, j: nat)
    requires a.Object? && b.Object? && j < |b.fields|
    decreases a, 0
  {
    exists i | 0 <= i < |a.fields| :: a.fields[i].0 == b.fields[j].0 && SameValue(a.fields[i].1, b.fields[j].1)
  }

  predicate KeysAscend<T>(fields: seq<(string, T)>) {
    forall i, j | 0 <= i < j < |fields| :: Less(fields[i].0, fields[j].0)
  }

  predicate DistinctKeys<T>(fields: seq<(string, T)>) {
    forall i, j | 0 <= i < j < |fields| :: fields[i].0 != fields[j].0
  }

  lemma {:induction false} PlaceAscends<T>(field: (string, T), sorted: seq<(string, T)>)
    requires KeysAscend(sorted) && forall k | 0 <= k < |sorted| :: sorted[k].0 != field.0
    ensures KeysAscend(Place(field, sorted))
  {
    if sorted == [] {
    } else if Less(field.0, sorted[0].0) {
      var out := [field] + sorted;
      forall j | 0 < j < |out| ensures Less(field.0, out[j].0) {
        if j > 1 { LessTransitive(field.0, sorted[0].0, sorted[j - 1].0); }
      }
    } else {
      assert sorted == [sorted[0]] + sorted[1..];
      PlaceAscends(field, sorted[1..]);
      PlaceHolds(field, sorted[1..]);
      LessTotal(field.0, sorted[0].0);
      var rest := Place(field, sorted[1..]);
      assert forall j | 0 <= j < |rest| :: rest[j] == field || rest[j] in sorted[1..];
    }
  }

  lemma {:induction false} ByKeyAscends<T>(fields: seq<(string, T)>)
    requires DistinctKeys(fields)
    ensures KeysAscend(ByKey(fields))
  {
    if fields != [] {
      ByKeyAscends(fields[1..]);
      ByKeyHolds(fields[1..]);
      var rest := ByKey(fields[1..]);
      assert forall k | 0 <= k < |rest| :: rest[k] in fields[1..];
      PlaceAscends(fields[0], ByKey(fields[1..]));
    }
  }

  predicate Within<T(==)>(a: seq<(string, T)>, b: seq<(string, T)>) {
    forall k | 0 <= k < |a| :: a[k] in b
  }

  /** Two ascending lists with the same elements are equal. */
  lemma {:induction false} AscendingUnique<T>(a: seq<(string, T)>, b: seq<(string, T)>)
    requires KeysAscend(a) && KeysAscend(b) && Within(a, b) && Within(b, a)
    ensures a == b
  {
    if a != [] {
      assert a[0] in b;
      LessTotal(a[0].0, b[0].0);
      LessTotal(a[0].0, a[0].0);
      assert a == [a[0]] + a[1..] && b == [b[0]] + b[1..];
      assert a[0] == b[0];
      TailWithin(a, b);
      TailWithin(b, a);
      AscendingUnique(a[1..], b[1..]);
    }
  }

  lemma TailWithin<T>(a: seq<(string, T)>, b: seq<(string, T)>)
    requires KeysAscend(a) && Within(a, b) && a != [] && b != [] && a[0] == b[0]
    ensures Within(a[1..], b[1..])
  {
    LessTotal(a[0].0, a[0].0);
    assert b == [b[0]] + b[1..];
    forall k | 0 <= k < |a[1..]| ensures a[1..][k] in b[1..] {
      assert a[k + 1] in b && a[k + 1] != b[0];
    }
  }

  /** Field i of x has a counterpart in y, up to the order of keys inside. */
  predicate Matched(x: seq<(string, Json)>, i: nat, y: seq<(string, Json)>)
    requires i < |x|
  {
    exists j | 0 <= j < |y| :: x[i].0 == y[j].0 && Ordered(x[i].1) == Ordered(y[j].1)
  }

  lemma {:induction false} OrderedSame(a: Json, b: Json)
    requires Proper(a) && Proper(b) && SameValue(a, b)
    ensures Ordered(a) == Ordered(b)
    decreases a
  {
    hide Ordered, Found, FoundBack;
    if a.Array? {
      var x, y := a.items, b.items;
      forall i | 0 <= i < |x| ensures Ordered(x[i]) == Ordered(y[i]) { OrderedSame(x[i], y[i]); }
      PrintArray(x);
      PrintArray(y);
      assert AllOrdered(x) == AllOrdered(y);
    } else if a.Object? {
      var x, y := a.fields, b.fields;
      forall i | 0 <= i < |x| ensures Matched(x, i, y) {
        var j := Find(a, i, b);
        OrderedSame(x[i].1, y[j].1);
      }
      forall j | 0 <= j < |y| ensures Matched(y, j, x) {
        var i := FindBack(a, b, j);
        OrderedSame(x[i].1, y[j].1);
      }
      MatchedWithin(x, y);
      MatchedWithin(y, x);
      SameFields(x, y);
    }
  }

  lemma Find(a: Json, i: nat, b: Json) returns (j: nat)
    requires a.Object? && b.Object? && i < |a.fields| && Found(a, i, b)
    ensures j < |b.fields| && a.fields[i].0 == b.fields[j].0 && SameValue(a.fields[i].1, b.fields[j].1)
  {
    j :| 0 <= j < |b.fields| && a.fields[i].0 == b.fields[j].0 && SameValue(a.fields[i].1, b.fields[j].1);
  }

  lemma FindBack(a: Json, b: Json, j: nat) returns (i: nat)
    requires a.Object? && b.Object? && j < |b.fields| && FoundBack(a, b, j)
    ensures i < |a.fields| && a.fields[i].0 == b.fields[j].0 && SameValue(a.fields[i].1, b.fields[j].1)
  {
    i :| 0 <= i < |a.fields| && a.fields[i].0 == b.fields[j].0 && SameValue(a.fields[i].1, b.fields[j].1);
  }

  lemma MatchedWithin(x: seq<(string, Json)>, y: seq<(string, Json)>)
    requires forall i | 0 <= i < |x| :: Matched(x, i, y)
    ensures Within(ByKey(MapValues(x, Ordered)), ByKey(MapValues(y, Ordered)))
  {
    hide Ordered, MapValues, ByKey;
    var mx, my := MapValues(x, Ordered), MapValues(y, Ordered);
    ByKeyHolds(mx);
    ByKeyHolds(my);
    forall k | 0 <= k < |mx| ensures ByKey(mx)[k] in ByKey(my) {
      var i :| 0 <= i < |mx| && mx[i] == ByKey(mx)[k];
      assert Matched(x, i, y);
      var j :| 0 <= j < |y| && x[i].0 == y[j].0 && Ordered(x[i].1) == Ordered(y[j].1);
      assert my[j] == mx[i];
    }
  }

  lemma SameFields(x: seq<(string, Json)>, y: seq<(string, Json)>)
    requires DistinctKeys(x) && DistinctKeys(y)
    requires Within(ByKey(MapValues(x, Ordered)), ByKey(MapValues(y, Ordered)))
    requires Within(ByKey(MapValues(y, Ordered)), ByKey(MapValues(x, Ordered)))
    ensures Ordered(Object(x)) == Ordered(Object(y))
  {
    hide Ordered, MapValues, ByKey, Print;
    var mx, my := MapValues(x, Ordered), MapValues(y, Ordered);
    ByKeyMaps(x, Ordered);
    ByKeyMaps(y, Ordered);
    ByKeyAscends(mx);
    ByKeyAscends(my);
    AscendingUnique(ByKey(mx), ByKey(my));
    PrintObject(x);
    PrintObject(y);
  }

  lemma {:induction false} SameOrdered(a: Json, b: Json)
    requires Proper(a) && Proper(b) && Ordered(a) == Ordered(b)
    ensures SameValue(a, b)
    decreases a
  {
    if a.Array? {
      var x, y := a.items, b.items;
      PrintArray(x);
      PrintArray(y);
      hide Ordered;
      forall i | 0 <= i < |x| ensures SameValue(x[i], y[i]) {
        assert AllOrdered(x)[i] == AllOrdered(y)[i];
        SameOrdered(x[i], y[i]);
      }
    } else if a.Object? {
      assert b.Object?;
      hide Ordered;
      var x, y := a.fields, b.fields;
      PrintObject(x);
      PrintObject(y);
      forall i | 0 <= i < |x| ensures Found(a, i, b) {
        var j := Partner(x, y, i);
        SameOrdered(x[i].1, y[j].1);
      }
      forall j | 0 <= j < |y| ensures FoundBack(a, b, j) {
        var i := Partner(y, x, j);
        SameOrdered(x[i].1, y[j].1);
      }
    }
  }

  lemma Partner(x: seq<(string, Json)>, y: seq<(string, Json)>, i: nat) returns (j: nat)
    requires MapValues(ByKey(x), Ordered) == MapValues(ByKey(y), Ordered) && i < |x|
    ensures j < |y| && x[i].0 == y[j].0 && Ordered(x[i].1) == Ordered(y[j].1)
  {
    hide Ordered, MapValues, ByKey;
    ByKeyHolds(x);
    ByKeyHolds(y);
    assert x[i] in ByKey(x);
    var k :| 0 <= k < |ByKey(x)| && ByKey(x)[k] == x[i];
    assert MapValues(ByKey(x), Ordered)[k] == MapValues(ByKey(y), Ordered)[k];
    assert ByKey(y)[k] in y;
    j :| 0 <= j < |y| && y[j] == ByKey(y)[k];
  }

  /** Two values have the same canonical text exactly when they are the same value up to key order. */
  lemma SameTextIffSameValue(a: Json, b: Json)
    requires Proper(a) && Proper(b)
    ensures Print(a) == Print(b) <==> SameValue(a, b)
  {
    RoundTrip(a, "");
    RoundTrip(b, "");
    assert Print(a) + "" == Print(a) && Print(b) + "" == Print(b);
    if SameValue(a, b) {
      OrderedSame(a, b);
      OrderedPrints(a);
      OrderedPrints(b);
    }
    if Print(a) == Print(b) {
      SameOrdered(a, b);
    }
  }

  /** Putting the keys in order does not change the text. */
  lemma {:induction false} OrderedPrints(v: Json)
    requires Proper(v)
    ensures Print(Ordered(v)) == Print(v)
  {
    match v
    case Array(items) =>
      PrintArray(items);
      PrintArray(AllOrdered(items));
      forall i | 0 <= i < |items| ensures Print(Ordered(items[i])) == Print(items[i]) { OrderedPrints(items[i]); }
      assert Printed(items) == Printed(AllOrdered(items));
    case Object(fields) =>
      forall i | 0 <= i < |fields| ensures Print(Ordered(fields[i].1)) == Print(fields[i].1) {
        OrderedPrints(fields[i].1);
      }
      OrderedObjectPrints(fields);
    case _ =>
  }

  lemma OrderedObjectPrints(fields: seq<(string, Json)>)
    requires DistinctKeys(fields) && forall i | 0 <= i < |fields| :: Print(Ordered(fields[i].1)) == Print(fields[i].1)
    ensures Print(Ordered(Object(fields))) == Print(Object(fields))
  {
    hide Ordered, Print, MapValues, ByKey;
    var sorted, plain := MapValues(ByKey(fields), Ordered), MapValues(fields, Ordered);
    PrintObject(fields);
    PrintObject(sorted);
    ByKeyMaps(fields, Ordered);
    ByKeyHolds(plain);
    ByKeyAscends(plain);
    ByKeyHolds(fields);
    AscendingIsSorted(sorted);
    forall k | 0 <= k < |sorted| ensures Print(sorted[k].1) == Print(ByKey(fields)[k].1) {
      assert ByKey(fields)[k] in fields;
    }
    assert MapValues(sorted, Print) == MapValues(ByKey(fields), Print);
  }

  lemma AscendingIsSorted<T>(fields: seq<(string, T)>)
    requires KeysAscend(fields)
    ensures ByKey(fields) == fields
  {
    forall i, j | 0 <= i < j < |fields| ensures fields[i].0 != fields[j].0 { LessTotal(fields[i].0, fields[j].0); }
    ByKeyAscends(fields);
    ByKeyHolds(fields);
    AscendingUnique(ByKey(fields), fields);
  }

  /** With a hash that has no collisions, equal plan digests mean equal plans, and equal plans have equal
      digests however their keys are ordered. */
  lemma SameDigestIffSamePlan(sha: string -> string, a: Json, b: Json)
    requires Proper(a) && Proper(b) && forall x, y :: sha(x) == sha(y) ==> x == y
    ensures sha(Print(a)) == sha(Print(b)) <==> SameValue(a, b)
  {
    SameTextIffSameValue(a, b);
  }
}
