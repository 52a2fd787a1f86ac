/**
 Python's `sorted(xs, key=...)` for the sort keys this code base uses: tuples
 whose components are ints, strings or tuples of strings, compared
 lexicographically. The sort is a stable insertion sort.
 */
module Sorting {
  import Text

  /** One component of a Python sort-key tuple. */
  datatype Atom = AInt(i: int) | AStr(s: string) | ATup(parts: seq<string>)

  /** A Python sort key: a tuple of atoms. */
  type Key = seq<Atom>

  ghost predicate StrictTotal<T(!new)>(lt: (T, T) -> bool)
  {
    && (forall a :: !lt(a, a))
    && (forall a, b, c :: lt(a, b) && lt(b, c) ==> lt(a, c))
    && (forall a, b :: lt(a, b) || a == b || lt(b, a))
  }

  /** Python's `<` on tuples (and on sequences in general), given `<` on elements. */
  predicate LexLess<T(==)>(x: seq<T>, y: seq<T>, lt: (T, T) -> bool)
  {
    if |x| == 0 then |y| > 0
    else if |y| == 0 then false
    else lt(x[0], y[0]) || (x[0] == y[0] && LexLess(x[1..], y[1..], lt))
  }

  lemma {:induction false} LexIrreflexive<T(!new)>(x: seq<T>, lt: (T, T) -> bool)
    requires StrictTotal(lt)
    ensures !LexLess(x, x, lt)
    decreases |x|
  {
    if |x| > 0 {
      LexIrreflexive(x[1..], lt);
    }
  }

  lemma {:induction false} LexTransitive<T(!new)>(x: seq<T>, y: seq<T>, z: seq<T>, lt: (T, T) -> bool)
    requires StrictTotal(lt)
    requires LexLess(x, y, lt) && LexLess(y, z, lt)
    ensures LexLess(x, z, lt)
    decreases |x|
  {
    if |x| > 0 && |y| > 0 && |z| > 0 && x[0] == y[0] && y[0] == z[0] {
      LexTransitive(x[1..], y[1..], z[1..], lt);
    }
  }

  lemma {:induction false} LexTotal<T(!new)>(x: seq<T>, y: seq<T>, lt: (T, T) -> bool)
    requires StrictTotal(lt)
    ensures LexLess(x, y, lt) || x == y || LexLess(y, x, lt)
    decreases |x|
  {
    if |x| > 0 && |y| > 0 && x[0] == y[0] {
      LexTotal(x[1..], y[1..], lt);
      if x[1..] == y[1..] {
        assert x == [x[0]] + x[1..] && y == [y[0]] + y[1..];
      }
    }
  }

  lemma TextLessStrictTotal()
    ensures StrictTotal(Text.Less)
  {
    forall a: string { Text.LessIrreflexive(a); }
    forall a: string, b: string, c: string | Text.Less(a, b) && Text.Less(b, c)
      ensures Text.Less(a, c)
    {
      Text.LessTransitive(a, b, c);
    }
    forall a: string, b: string { Text.LessTotal(a, b); }
  }

  function Rank(a: Atom): nat
  {
    match a
    case AInt(_) => 0
    case AStr(_) => 1
    case ATup(_) => 2
  }

  /** `<` on atoms of the same kind is Python's; atoms of different kinds never
      meet in the keys of one sort, and are ordered by kind. */
  predicate AtomLess(a: Atom, b: Atom)
  {
    if Rank(a) != Rank(b) then Rank(a) < Rank(b)
    else match a
      case AInt(i) => i < b.i
      case AStr(s) => Text.Less(s, b.s)
      case ATup(p) => LexLess(p, b.parts, Text.Less)
  }

  lemma AtomLessStrictTotal()
    ensures StrictTotal(AtomLess)
  {
    TextLessStrictTotal();
    forall a: Atom ensures !AtomLess(a, a) {
      match a
      case AInt(_) =>
      case AStr(s) => Text.LessIrreflexive(s);
      case ATup(p) => LexIrreflexive(p, Text.Less);
    }
    forall a: Atom, b: Atom, c: Atom | AtomLess(a, b) && AtomLess(b, c)
      ensures AtomLess(a, c)
    {
      if Rank(a) == Rank(b) == Rank(c) {
        match a
        case AInt(_) =>
        case AStr(s) => Text.LessTransitive(s, b.s, c.s);
        case ATup(p) => LexTransitive(p, b.parts, c.parts, Text.Less);
      }
    }
    forall a: Atom, b: Atom ensures AtomLess(a, b) || a == b || AtomLess(b, a) {
      if Rank(a) == Rank(b) {
        match a
        case AInt(_) =>
        case AStr(s) => Text.LessTotal(s, b.s);
        case ATup(p) => LexTotal(p, b.parts, Text.Less);
      }
    }
  }

  /** Python's `<` on sort keys. */
  predicate KeyLess(x: Key, y: Key)
  {
    LexLess(x, y, AtomLess)
  }

  predicate KeyLessEq(x: Key, y: Key)
  {
    !KeyLess(y, x)
  }

  lemma KeyOrder(x: Key, y: Key, z: Key)
    ensures !KeyLess(x, x)
    ensures KeyLess(x, y) && KeyLess(y, z) ==> KeyLess(x, z)
    ensures KeyLess(x, y) || x == y || KeyLess(y, x)
    ensures KeyLess(x, y) ==> !KeyLess(y, x)
  {
    AtomLessStrictTotal();
    LexIrreflexive(x, AtomLess);
    LexTotal(x, y, AtomLess);
    if KeyLess(x, y) && KeyLess(y, z) {
      LexTransitive(x, y, z, AtomLess);
    }
    if KeyLess(x, y) && KeyLess(y, x) {
      LexTransitive(x, y, x, AtomLess);
    }
  }

  predicate SortedBy<T>(s: seq<T>, key: T -> Key)
  {
    forall i, j :: 0 <= i < j < |s| ==> KeyLessEq(key(s[i]), key(s[j]))
  }

  lemma KeyLessEqTransitive(x: Key, y: Key, z: Key)
    requires KeyLessEq(x, y) && KeyLessEq(y, z)
    ensures KeyLessEq(x, z)
  {
    KeyOrder(x, y, z);
    KeyOrder(z, x, y);
    KeyOrder(y, z, x);
  }

  /** Inserts `x` before the first element whose key is not smaller, so `x`
      precedes the elements whose key equals its own. */
  function Insert<T(==)>(x: T, s: seq<T>, key: T -> Key): (r: seq<T>)
    ensures multiset(r) == multiset(s) + multiset{x}
  {
    if |s| == 0 then [x]
    else if !KeyLess(key(s[0]), key(x)) then [x] + s
    else
      assert s == [s[0]] + s[1..];
      [s[0]] + Insert(x, s[1..], key)
  }

  lemma {:induction false} InsertSorted<T>(x: T, s: seq<T>, key: T -> Key)
    requires SortedBy(s, key)
    ensures SortedBy(Insert(x, s, key), key)
    decreases |s|
  {
    if |s| == 0 {
    } else if !KeyLess(key(s[0]), key(x)) {
      forall j | 0 <= j < |s| ensures KeyLessEq(key(x), key(s[j])) {
        if j > 0 {
          KeyLessEqTransitive(key(x), key(s[0]), key(s[j]));
        }
      }
    } else {
      var rest := Insert(x, s[1..], key);
      InsertSorted(x, s[1..], key);
      forall j | 0 <= j < |rest| ensures KeyLessEq(key(s[0]), key(rest[j])) {
        assert rest[j] in multiset(rest);
        if rest[j] == x {
          KeyOrder(key(s[0]), key(x), key(x));
        } else {
          assert rest[j] in multiset(s[1..]);
          var k :| 0 <= k < |s[1..]| && s[1..][k] == rest[j];
          assert s[k + 1] == rest[j];
        }
      }
    }
  }

  /** `sorted(s, key=key)`. */
  function SortBy<T(==)>(s: seq<T>, key: T -> Key): (r: seq<T>)
    ensures SortedBy(r, key)
    ensures multiset(r) == multiset(s)
    ensures |r| == |s|
  {
    if |s| == 0 then []
    else
      assert s == [s[0]] + s[1..];
      var tail := SortBy(s[1..], key);
      InsertSorted(s[0], tail, key);
      var r := Insert(s[0], tail, key);
      assert |r| == |multiset(r)|;
      r
  }

  function StrKey(s: string): Key { [AStr(s)] }

  /** `sorted(names)` for strings. */
  function SortStrings(names: seq<string>): (r: seq<string>)
    ensures multiset(r) == multiset(names) && |r| == |names|
    ensures forall i, j :: 0 <= i < j < |r| ==> Text.LessEq(r[i], r[j])
  {
    var r := SortBy(names, StrKey);
    assert forall i, j :: 0 <= i < j < |r| ==> Text.LessEq(r[i], r[j]) by {
      forall i, j | 0 <= i < j < |r| ensures Text.LessEq(r[i], r[j]) {
        assert KeyLessEq(StrKey(r[i]), StrKey(r[j]));
        Text.LessTotal(r[i], r[j]);
      }
    }
    r
  }

  lemma LessEqAntisym(a: string, b: string)
    requires Text.LessEq(a, b) && Text.LessEq(b, a)
    ensures a == b
  {
    if a != b { Text.LessAsymmetric(a, b); }
  }

  /** `m` is the least element of `s`. */
  predicate IsLeast(m: string, s: set<string>)
  {
    m in s && forall y :: y in s ==> Text.LessEq(m, y)
  }

  /** Every non-empty finite set of strings has a least element. */
  lemma {:induction false} Least(s: set<string>) returns (m: string)
    requires s != {}
    ensures IsLeast(m, s)
    decreases |s|
  {
    var x :| x in s;
    if s == {x} {
      m := x;
    } else {
      var m' := Least(s - {x});
      Text.LessTotal(m', x);
      if Text.Less(x, m') {
        forall y | y in s ensures Text.LessEq(x, y) {
          if y != x {
            assert y in s - {x};
            if y != m' { Text.LessTransitive(x, m', y); }
          }
        }
        m := x;
      } else {
        m := m';
      }
    }
  }

  lemma LeastExists(s: set<string>)
    requires s != {}
    ensures exists m :: IsLeast(m, s)
  {
    var m := Least(s);
  }

  function Min(s: set<string>): (m: string)
    requires s != {}
    ensures IsLeast(m, s)
  {
    LeastExists(s);
    assert forall a, b :: IsLeast(a, s) && IsLeast(b, s) ==> a == b by {
      forall a, b | IsLeast(a, s) && IsLeast(b, s) ensures a == b {
        LessEqAntisym(a, b);
      }
    }
    var m :| IsLeast(m, s);
    m
  }

  /** `sorted(keys)` for a set of distinct names: strictly ascending, each
      element once. */
  function SortedSet(s: set<string>): (r: seq<string>)
    ensures forall x :: x in r <==> x in s
    ensures forall i, j :: 0 <= i < j < |r| ==> Text.Less(r[i], r[j])
    decreases |s|
  {
    if s == {} then []
    else
      var m := Min(s);
      var rest := SortedSet(s - {m});
      assert forall j :: 0 <= j < |rest| ==> Text.Less(m, rest[j]) by {
        forall j | 0 <= j < |rest| ensures Text.Less(m, rest[j]) {
          assert rest[j] in rest;
          assert rest[j] in s && rest[j] != m;
        }
      }
      [m] + rest
  }
}
