/**
 * Database rows, field values and `QuerySet.order_by`.
 *
 * A queryset is a `seq<Row>`; `order_by("-a", "b", "pk")` is a list of
 * `OrderKey`s compared lexicographically, and the database's answer is any
 * permutation of the rows that is sorted by that comparison.  `OrderBy` is one
 * such answer (an insertion sort); `SortedPermutationUnique` shows that once
 * the keys end in `pk` there is no other.
 */
module Rows {
  import opened Wrappers
  import opened Text

  /**
   * A field value.  A datetime carries its wall-clock time in seconds and,
   * when it is aware, its UTC offset in seconds.
   */
  datatype Value =
    | VNone
    | VBool(b: bool)
    | VInt(i: int)
    | VStr(s: string)
    | VDateTime(wall: int, offset: Option<int>)

  /** A model instance: its primary key and its other attributes. */
  datatype Row = Row(pk: nat, fields: map<string, Value>)

  /** The value a lookup on `name` reads; "pk" and "id" are the primary key. */
  function Field(r: Row, name: string): Value
  {
    if name == "pk" || name == "id" then VInt(r.pk)
    else if name in r.fields then r.fields[name]
    else VNone
  }

  /** `getattr(obj, name, default)` */
  function Attr(r: Row, name: string, default: Value): Value
  {
    if name == "pk" || name == "id" then VInt(r.pk)
    else if name in r.fields then r.fields[name]
    else default
  }

  /** `str(v)`, with datetimes left to their own formatter. */
  function TextOf(v: Value): string
  {
    match v
    case VNone => "None"
    case VBool(b) => if b then "True" else "False"
    case VInt(i) => if i < 0 then "-" + NatToString(-i) else NatToString(i)
    case VStr(s) => s
    case VDateTime(w, _) => if w < 0 then "-" + NatToString(-w) else NatToString(w)
  }

  /** `field__icontains=q`: only text fields can contain text. */
  predicate ValueIContains(v: Value, q: string)
  {
    v.VStr? && IContains(v.s, q)
  }

  // ---------------------------------------------------------------------
  // Comparison

  function Sign(a: int, b: int): int
  {
    if a < b then -1 else if a > b then 1 else 0
  }

  function CompareStrings(a: string, b: string): int
  {
    if a == [] && b == [] then 0
    else if a == [] then -1
    else if b == [] then 1
    else if a[0] != b[0] then Sign(a[0] as int, b[0] as int)
    else CompareStrings(a[1..], b[1..])
  }

  lemma {:induction false} CompareStringsProps(a: string, b: string)
    ensures CompareStrings(a, b) == -CompareStrings(b, a)
    ensures CompareStrings(a, b) == 0 <==> a == b
  {
    if a != [] && b != [] && a[0] == b[0] {
      CompareStringsProps(a[1..], b[1..]);
      if a[1..] == b[1..] {
        assert a == [a[0]] + a[1..];
        assert b == [b[0]] + b[1..];
      }
    }
  }

  lemma {:induction false} CompareStringsTrans(a: string, b: string, c: string)
    requires CompareStrings(a, b) <= 0 && CompareStrings(b, c) <= 0
    ensures CompareStrings(a, c) <= 0
  {
    if a != [] && b != [] && c != [] && a[0] == b[0] && b[0] == c[0] {
      CompareStringsTrans(a[1..], b[1..], c[1..]);
    }
  }

  /** Where a value kind sorts relative to the other kinds; NULL first. */
  function Rank(v: Value): nat
  {
    match v
    case VNone => 0
    case VBool(_) => 1
    case VInt(_) => 2
    case VStr(_) => 3
    case VDateTime(_, _) => 4
  }

  /** The instant a datetime denotes, in seconds since the epoch. */
  function Instant(v: Value): int
    requires v.VDateTime?
  {
    v.wall - v.offset.GetOr(0)
  }

  /** Ascending comparison of two values: -1, 0 or 1. */
  function CompareValues(a: Value, b: Value): int
  {
    if Rank(a) != Rank(b) then Sign(Rank(a), Rank(b))
    else match a
      case VNone => 0
      case VBool(x) => Sign(if x then 1 else 0, if b.b then 1 else 0)
      case VInt(x) => Sign(x, b.i)
      case VStr(x) => CompareStrings(x, b.s)
      case VDateTime(_, _) => Sign(Instant(a), Instant(b))
  }

  lemma CompareValuesAntisym(a: Value, b: Value)
    ensures CompareValues(a, b) == -CompareValues(b, a)
  {
    if a.VStr? && b.VStr? {
      CompareStringsProps(a.s, b.s);
    }
  }

  lemma CompareValuesTrans(a: Value, b: Value, c: Value)
    requires CompareValues(a, b) <= 0 && CompareValues(b, c) <= 0
    ensures CompareValues(a, c) <= 0
  {
    if a.VStr? && b.VStr? && c.VStr? {
      CompareStringsTrans(a.s, b.s, c.s);
    }
  }

  // ---------------------------------------------------------------------
  // order_by

  /** One `order_by` argument: `field` or `-field`. */
  datatype OrderKey = OrderKey(field: string, descending: bool)

  /** The `order_by` argument string, `"-" + field` when descending. */
  function KeyText(k: OrderKey): string
  {
    (if k.descending then "-" else "") + k.field
  }

  function KeyCompare(k: OrderKey, a: Row, b: Row): int
  {
    var c := CompareValues(Field(a, k.field), Field(b, k.field));
    if k.descending then -c else c
  }

  lemma KeyCompareAntisym(k: OrderKey, a: Row, b: Row)
    ensures KeyCompare(k, a, b) == -KeyCompare(k, b, a)
  {
    CompareValuesAntisym(Field(a, k.field), Field(b, k.field));
  }

  lemma KeyCompareTrans(k: OrderKey, a: Row, b: Row, c: Row)
    requires KeyCompare(k, a, b) <= 0 && KeyCompare(k, b, c) <= 0
    ensures KeyCompare(k, a, c) <= 0
  {
    var fa, fb, fc := Field(a, k.field), Field(b, k.field), Field(c, k.field);
    if k.descending {
      CompareValuesAntisym(fa, fb);
      CompareValuesAntisym(fb, fc);
      CompareValuesAntisym(fa, fc);
      CompareValuesTrans(fc, fb, fa);
    } else {
      CompareValuesTrans(fa, fb, fc);
    }
  }

  /** The lexicographic comparison `ORDER BY k1, k2, ...` applies to two rows. */
  function CompareBy(keys: seq<OrderKey>, a: Row, b: Row): int
  {
    if keys == [] then 0
    else
      var d := KeyCompare(keys[0], a, b);
      if d != 0 then d else CompareBy(keys[1..], a, b)
  }

  lemma {:induction false} CompareByAntisym(keys: seq<OrderKey>, a: Row, b: Row)
    ensures CompareBy(keys, a, b) == -CompareBy(keys, b, a)
  {
    if keys != [] {
      KeyCompareAntisym(keys[0], a, b);
      CompareByAntisym(keys[1..], a, b);
    }
  }

  lemma {:induction false} CompareByTrans(keys: seq<OrderKey>, a: Row, b: Row, c: Row)
    requires CompareBy(keys, a, b) <= 0 && CompareBy(keys, b, c) <= 0
    ensures CompareBy(keys, a, c) <= 0
  {
    if keys != [] {
      var k := keys[0];
      KeyCompareAntisym(k, a, b);
      KeyCompareAntisym(k, b, c);
      KeyCompareAntisym(k, a, c);
      if KeyCompare(k, a, b) == 0 && KeyCompare(k, b, c) == 0 {
        KeyCompareTrans(k, a, b, c);
        KeyCompareTrans(k, c, b, a);
        CompareByTrans(keys[1..], a, b, c);
      } else if KeyCompare(k, a, c) >= 0 {
        // a before-or-tied-with b and b with c on k, yet c before-or-tied-with a:
        // every pair is then tied on k, against the case split.
        KeyCompareTrans(k, b, c, a);
        KeyCompareTrans(k, c, a, b);
      }
    }
  }

  /** Two rows tied on every key compare equal on each key. */
  lemma {:induction false} CompareByZero(keys: seq<OrderKey>, a: Row, b: Row, i: nat)
    requires CompareBy(keys, a, b) == 0 && i < |keys|
    ensures KeyCompare(keys[i], a, b) == 0
  {
    if i > 0 {
      CompareByZero(keys[1..], a, b, i - 1);
    }
  }

  predicate Sorted(s: seq<Row>, keys: seq<OrderKey>)
  {
    forall i, j :: 0 <= i < j < |s| ==> CompareBy(keys, s[i], s[j]) <= 0
  }

  function Insert(x: Row, s: seq<Row>, keys: seq<OrderKey>): seq<Row>
  {
    if s == [] then [x]
    else if CompareBy(keys, x, s[0]) <= 0 then [x] + s
    else [s[0]] + Insert(x, s[1..], keys)
  }

  /** One answer the database may give to `qs.order_by(*keys)`. */
  function OrderBy(qs: seq<Row>, keys: seq<OrderKey>): seq<Row>
  {
    if qs == [] then [] else Insert(qs[0], OrderBy(qs[1..], keys), keys)
  }

  lemma {:induction false} InsertMultiset(x: Row, s: seq<Row>, keys: seq<OrderKey>)
    ensures multiset(Insert(x, s, keys)) == multiset(s) + multiset{x}
  {
    if s != [] && CompareBy(keys, x, s[0]) > 0 {
      InsertMultiset(x, s[1..], keys);
      assert s == [s[0]] + s[1..];
    }
  }

  /** A row ordered before `x` and before every row of `s` stays before every row once `x` is inserted. */
  lemma {:induction false} InsertLowerBound(y: Row, x: Row, s: seq<Row>, keys: seq<OrderKey>)
    requires CompareBy(keys, y, x) <= 0
    requires forall e :: e in s ==> CompareBy(keys, y, e) <= 0
    ensures forall e :: e in Insert(x, s, keys) ==> CompareBy(keys, y, e) <= 0
  {
    if s != [] && CompareBy(keys, x, s[0]) > 0 {
      InsertLowerBound(y, x, s[1..], keys);
    }
  }

  lemma SortedCons(h: Row, t: seq<Row>, keys: seq<OrderKey>)
    requires Sorted(t, keys)
    requires forall e :: e in t ==> CompareBy(keys, h, e) <= 0
    ensures Sorted([h] + t, keys)
  {
    var r := [h] + t;
    forall i, j | 0 <= i < j < |r| ensures CompareBy(keys, r[i], r[j]) <= 0 {
      if i == 0 {
        assert r[j] == t[j - 1];
        assert r[j] in t;
      } else {
        assert r[i] == t[i - 1] && r[j] == t[j - 1];
      }
    }
  }

  lemma {:induction false} InsertSorted(x: Row, s: seq<Row>, keys: seq<OrderKey>)
    requires Sorted(s, keys)
    ensures Sorted(Insert(x, s, keys), keys)
  {
    if s == [] {
    } else if CompareBy(keys, x, s[0]) <= 0 {
      forall e | e in s ensures CompareBy(keys, x, e) <= 0 {
        var j :| 0 <= j < |s| && s[j] == e;
        if j > 0 { CompareByTrans(keys, x, s[0], e); }
      }
      SortedCons(x, s, keys);
    } else {
      assert Sorted(s[1..], keys);
      InsertSorted(x, s[1..], keys);
      CompareByAntisym(keys, x, s[0]);
      forall e | e in s[1..] ensures CompareBy(keys, s[0], e) <= 0 {
        var j :| 0 <= j < |s[1..]| && s[1..][j] == e;
        assert s[j + 1] == e;
      }
      InsertLowerBound(s[0], x, s[1..], keys);
      SortedCons(s[0], Insert(x, s[1..], keys), keys);
    }
  }

  /** `OrderBy` returns the same rows, sorted by the keys. */
  lemma {:induction false} OrderBySorted(qs: seq<Row>, keys: seq<OrderKey>)
    ensures multiset(OrderBy(qs, keys)) == multiset(qs)
    ensures Sorted(OrderBy(qs, keys), keys)
  {
    if qs != [] {
      OrderBySorted(qs[1..], keys);
      InsertMultiset(qs[0], OrderBy(qs[1..], keys), keys);
      InsertSorted(qs[0], OrderBy(qs[1..], keys), keys);
      assert qs == [qs[0]] + qs[1..];
    }
  }

  /** Key lists that compare every pair of rows alike insert alike. */
  lemma {:induction false} InsertCongruent(x: Row, s: seq<Row>, k1: seq<OrderKey>, k2: seq<OrderKey>)
    requires forall a, b :: CompareBy(k1, a, b) == CompareBy(k2, a, b)
    ensures Insert(x, s, k1) == Insert(x, s, k2)
  {
    if s != [] && CompareBy(k1, x, s[0]) > 0 {
      InsertCongruent(x, s[1..], k1, k2);
    }
  }

  /** Key lists that compare every pair of rows alike give the same order. */
  lemma {:induction false} OrderByCongruent(qs: seq<Row>, k1: seq<OrderKey>, k2: seq<OrderKey>)
    requires forall a, b :: CompareBy(k1, a, b) == CompareBy(k2, a, b)
    ensures OrderBy(qs, k1) == OrderBy(qs, k2)
  {
    if qs != [] {
      OrderByCongruent(qs[1..], k1, k2);
      InsertCongruent(qs[0], OrderBy(qs[1..], k1), k1, k2);
    }
  }

  /** The primary key identifies the row, as it does in a table. */
  predicate UniquePks(s: seq<Row>)
  {
    forall x, y :: x in s && y in s && x.pk == y.pk ==> x == y
  }

  /** The key list ends in the primary key, `pk` or its alias `id` (ascending or descending). */
  predicate EndsWithPk(keys: seq<OrderKey>)
  {
    |keys| > 0 && (keys[|keys| - 1].field == "pk" || keys[|keys| - 1].field == "id")
  }

  /** Rows with different primary keys never tie under a key list ending in pk. */
  lemma {:induction false} PkKeySeparates(keys: seq<OrderKey>, a: Row, b: Row)
    requires EndsWithPk(keys) && a.pk != b.pk
    ensures CompareBy(keys, a, b) != 0
  {
    if |keys| == 1 {
      assert Field(a, keys[0].field) == VInt(a.pk);
    } else if KeyCompare(keys[0], a, b) == 0 {
      assert keys[1..][|keys| - 2] == keys[|keys| - 1];
      PkKeySeparates(keys[1..], a, b);
    }
  }

  /** The first row of a sorted sequence is ordered before-or-tied-with every row. */
  lemma SortedHeadFirst(s: seq<Row>, keys: seq<OrderKey>, e: Row)
    requires Sorted(s, keys) && e in s
    ensures CompareBy(keys, s[0], e) <= 0
  {
    var j :| 0 <= j < |s| && s[j] == e;
    if j == 0 {
      CompareByAntisym(keys, e, e);
    }
  }

  /** Two permutations with the same head have permuted tails. */
  lemma SameHeadTails(s: seq<Row>, t: seq<Row>)
    requires s != [] && t != [] && s[0] == t[0] && multiset(s) == multiset(t)
    ensures multiset(s[1..]) == multiset(t[1..])
  {
    assert s == [s[0]] + s[1..];
    assert t == [t[0]] + t[1..];
    assert multiset(s[1..]) == multiset(s) - multiset{s[0]};
    assert multiset(t[1..]) == multiset(t) - multiset{s[0]};
  }

  /** No two different rows of `s` tie under `keys`. */
  predicate KeysSeparate(keys: seq<OrderKey>, s: seq<Row>)
  {
    forall a, b :: a in s && b in s && a != b ==> CompareBy(keys, a, b) != 0
  }

  /**
   * When the keys separate the rows, the order is total: two sorted
   * permutations of the same rows are the same sequence.
   */
  lemma {:induction false} SortedSeparatedUnique(s: seq<Row>, t: seq<Row>, keys: seq<OrderKey>)
    requires KeysSeparate(keys, s)
    requires multiset(s) == multiset(t)
    requires Sorted(s, keys) && Sorted(t, keys)
    ensures s == t
  {
    assert |t| == |multiset(t)| == |s|;
    if s != [] {
      assert s[0] in multiset(t) && t[0] in multiset(s);
      SortedHeadFirst(s, keys, t[0]);
      SortedHeadFirst(t, keys, s[0]);
      CompareByAntisym(keys, s[0], t[0]);
      assert s[0] == t[0];
      SameHeadTails(s, t);
      assert Sorted(s[1..], keys) && Sorted(t[1..], keys);
      assert KeysSeparate(keys, s[1..]) by {
        forall a | a in s[1..] ensures a in s { }
      }
      SortedSeparatedUnique(s[1..], t[1..], keys);
    }
  }

  /** Keys ending in pk separate rows with distinct primary keys. */
  lemma PkKeysSeparate(keys: seq<OrderKey>, s: seq<Row>)
    requires EndsWithPk(keys) && UniquePks(s)
    ensures KeysSeparate(keys, s)
  {
    forall a, b | a in s && b in s && a != b ensures CompareBy(keys, a, b) != 0 {
      PkKeySeparates(keys, a, b);
    }
  }

  /**
   * The order is total once pk is appended: two sorted permutations of the
   * same rows are the same sequence, so every sorted answer of the database
   * is the same answer.
   */
  lemma SortedPermutationUnique(s: seq<Row>, t: seq<Row>, keys: seq<OrderKey>)
    requires EndsWithPk(keys) && UniquePks(s)
    requires multiset(s) == multiset(t)
    requires Sorted(s, keys) && Sorted(t, keys)
    ensures s == t
  {
    PkKeysSeparate(keys, s);
    SortedSeparatedUnique(s, t, keys);
  }

  /** When the keys separate the rows, any sorted permutation of them is what `OrderBy` gives. */
  lemma OrderBySeparatedIsTheOrder(qs: seq<Row>, t: seq<Row>, keys: seq<OrderKey>)
    requires KeysSeparate(keys, qs)
    requires multiset(t) == multiset(qs) && Sorted(t, keys)
    ensures t == OrderBy(qs, keys)
  {
    OrderBySorted(qs, keys);
    var o := OrderBy(qs, keys);
    assert KeysSeparate(keys, o) by {
      forall a | a in o ensures a in qs {
        assert a in multiset(qs);
      }
    }
    SortedSeparatedUnique(o, t, keys);
  }

  /** Any sorted permutation of a table's rows is what `OrderBy` gives. */
  lemma OrderByIsTheOrder(qs: seq<Row>, t: seq<Row>, keys: seq<OrderKey>)
    requires EndsWithPk(keys) && UniquePks(qs)
    requires multiset(t) == multiset(qs) && Sorted(t, keys)
    ensures t == OrderBy(qs, keys)
  {
    OrderBySorted(qs, keys);
    var o := OrderBy(qs, keys);
    forall x, y | x in o && y in o && x.pk == y.pk ensures x == y {
      assert x in multiset(qs) && y in multiset(qs);
    }
    SortedPermutationUnique(o, t, keys);
  }

  /**
   * Without the pk tie-breaker the order is not determined: two rows that
   * share a name can come back in either order.
   */
  lemma OrderWithoutPkIsAmbiguous()
    ensures var a := Row(1, map["name" := VStr("x")]);
            var b := Row(2, map["name" := VStr("x")]);
            var keys := [OrderKey("name", false)];
            Sorted([a, b], keys) && Sorted([b, a], keys) && [a, b] != [b, a]
  {
    var a := Row(1, map["name" := VStr("x")]);
    var b := Row(2, map["name" := VStr("x")]);
    CompareStringsProps("x", "x");
    assert CompareBy([OrderKey("name", false)], a, b) == 0;
    assert CompareBy([OrderKey("name", false)], b, a) == 0;
  }

  // ---------------------------------------------------------------------
  // filter()

  /** Elements of `sub` appear in `s` in the same relative order. */
  predicate SubsequenceOf<T(==)>(sub: seq<T>, s: seq<T>)
  {
    if sub == [] then true
    else if s == [] then false
    else if sub[0] == s[0] then SubsequenceOf(sub[1..], s[1..])
    else SubsequenceOf(sub, s[1..])
  }

  lemma {:induction false} SubsequenceOfSelf<T>(s: seq<T>)
    ensures SubsequenceOf(s, s)
  {
    if s != [] {
      SubsequenceOfSelf(s[1..]);
    }
  }

  /** A subsequence of the tail is a subsequence of the whole. */
  lemma {:induction false} SubsequenceSkip<T>(sub: seq<T>, s: seq<T>)
    requires s != [] && SubsequenceOf(sub, s[1..])
    ensures SubsequenceOf(sub, s)
    decreases |s|, 0
  {
    if sub != [] && sub[0] == s[0] {
      SubsequenceDrop(sub, s[1..]);
    }
  }

  /** Dropping the first element of a subsequence keeps it a subsequence. */
  lemma {:induction false} SubsequenceDrop<T>(sub: seq<T>, s: seq<T>)
    requires sub != [] && s != [] && SubsequenceOf(sub, s)
    ensures SubsequenceOf(sub[1..], s)
    decreases |s|, 1
  {
    if sub[0] == s[0] {
      SubsequenceSkip(sub[1..], s);
    } else {
      SubsequenceDrop(sub, s[1..]);
      SubsequenceSkip(sub[1..], s);
    }
  }

  /** `qs.filter(p)`: the rows satisfying `p`, in their order. */
  function Where(qs: seq<Row>, p: Row -> bool): seq<Row>
  {
    if qs == [] then []
    else if p(qs[0]) then [qs[0]] + Where(qs[1..], p)
    else Where(qs[1..], p)
  }

  /** A filter keeps exactly the rows satisfying its condition, in their original order. */
  lemma {:induction false} WhereMembers(qs: seq<Row>, p: Row -> bool)
    ensures forall r :: r in Where(qs, p) <==> r in qs && p(r)
    ensures SubsequenceOf(Where(qs, p), qs)
    ensures |Where(qs, p)| <= |qs|
  {
    if qs != [] {
      WhereMembers(qs[1..], p);
      assert qs == [qs[0]] + qs[1..];
      if p(qs[0]) {
        assert ([qs[0]] + Where(qs[1..], p))[1..] == Where(qs[1..], p);
      } else {
        SubsequenceSkip(Where(qs[1..], p), qs);
      }
    }
  }

  /** Two conditions that agree on every row filter alike. */
  lemma {:induction false} WhereExt(qs: seq<Row>, p: Row -> bool, q: Row -> bool)
    requires forall r :: r in qs ==> p(r) == q(r)
    ensures Where(qs, p) == Where(qs, q)
  {
    if qs != [] {
      assert forall r :: r in qs[1..] ==> r in qs;
      WhereExt(qs[1..], p, q);
    }
  }
}
