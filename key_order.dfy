/** The iteration order of a JavaScript `Map`: keys in the order they were
    first set. Setting a key that is already present keeps its place;
    deleting a key takes it out. The managers that iterate over a map keep
    this order beside the map. */
module KeyOrder {
  predicate Distinct<T(==)>(s: seq<T>) {
    forall i, j | 0 <= i < j < |s| :: s[i] != s[j]
  }

  /** The order lists exactly the keys of the map, each once. */
  predicate Orders<K(==), V>(order: seq<K>, m: map<K, V>) {
    && Distinct(order)
    && (forall k | k in order :: k in m)
    && (forall k | k in m :: k in order)
  }

  /** The order after setting key `x`. */
  function Inserted<T(==)>(s: seq<T>, x: T): seq<T> {
    if x in s then s else s + [x]
  }

  /** The order after deleting key `x`. */
  function Removed<T(==)>(s: seq<T>, x: T): seq<T>
    decreases |s|
  {
    if s == [] then []
    else (if s[0] == x then [] else [s[0]]) + Removed(s[1..], x)
  }

  lemma {:induction false} RemovedMembers<T>(s: seq<T>, x: T)
    ensures forall y :: y in Removed(s, x) <==> y in s && y != x
    decreases |s|
  {
    if s != [] {
      RemovedMembers(s[1..], x);
      assert s == [s[0]] + s[1..];
    }
  }

  lemma {:induction false} RemovedMember<T>(s: seq<T>, x: T, y: T)
    requires y in Removed(s, x)
    ensures y in s && y != x
    decreases |s|
  {
    if s != [] && (s[0] == x || y != s[0]) {
      RemovedMember(s[1..], x, y);
    }
  }

  lemma {:induction false} RemovedDistinct<T>(s: seq<T>, x: T)
    requires Distinct(s)
    ensures Distinct(Removed(s, x))
    decreases |s|
  {
    if s != [] {
      RemovedDistinct(s[1..], x);
      RemovedMembers(s[1..], x);
      var r := Removed(s[1..], x);
      assert s[0] !in s[1..] by {
        forall i | 0 <= i < |s[1..]| ensures s[1..][i] != s[0] {
          assert s[1..][i] == s[i + 1];
        }
      }
    }
  }

  /** Setting a key keeps the order in step with the map. */
  lemma InsertedOrders<K, V>(order: seq<K>, m: map<K, V>, k: K, v: V)
    requires Orders(order, m)
    ensures Orders(Inserted(order, k), m[k := v])
  {
  }

  /** Deleting a key keeps the order in step with the map. */
  lemma RemovedOrders<K, V>(order: seq<K>, m: map<K, V>, k: K)
    requires Orders(order, m)
    ensures Orders(Removed(order, k), m - {k})
  {
    RemovedDistinct(order, k);
    forall y | y in Removed(order, k) ensures y in m - {k} {
      RemovedMember(order, k, y);
    }
    forall y | y in m - {k} ensures y in Removed(order, k) {
      RemovedMembers(order, k);
    }
  }
}
