/** Shared vocabulary: optional values, refusals, and ordered listings of sets. */
module Common {

  /** Text keys of the store. */
  type Id = string

  datatype Option<+T> = None | Some(value: T)

  datatype Result<+T, +E> = Ok(value: T) | Err(error: E)

  ghost predicate StrictOrder<T(!new)>(less: (T, T) -> bool) {
    && (forall x :: !less(x, x))
    && (forall x, y, z :: less(x, y) && less(y, z) ==> less(x, z))
    && (forall x, y :: less(x, y) || x == y || less(y, x))
  }

  // ------------------------------------------------------------- text order

  /** Code-point order of text, as Python compares `str`. */
  predicate Before(a: string, b: string) {
    b != "" && (a == "" || a[0] < b[0] || (a[0] == b[0] && Before(a[1..], b[1..])))
  }

  lemma {:induction false} BeforeTransitive(a: string, b: string, c: string)
    requires Before(a, b) && Before(b, c)
    ensures Before(a, c)
  {
    if a == "" || a[0] != b[0] || b[0] != c[0] {
    } else {
      BeforeTransitive(a[1..], b[1..], c[1..]);
    }
  }

  lemma {:induction false} BeforeTotal(a: string, b: string)
    ensures Before(a, b) || a == b || Before(b, a)
  {
    if a == "" || b == "" || a[0] != b[0] {
    } else {
      BeforeTotal(a[1..], b[1..]);
      assert a == [a[0]] + a[1..] && b == [b[0]] + b[1..];
    }
  }

  lemma {:induction false} BeforeIrreflexive(a: string)
    ensures !Before(a, a)
  {
    if a == "" {
    } else {
      BeforeIrreflexive(a[1..]);
    }
  }

  lemma BeforeIsStrictOrder()
    ensures StrictOrder(Before)
  {
    forall x ensures !Before(x, x) { BeforeIrreflexive(x); }
    forall x, y, z | Before(x, y) && Before(y, z) ensures Before(x, z) { BeforeTransitive(x, y, z); }
    forall x, y ensures Before(x, y) || x == y || Before(y, x) { BeforeTotal(x, y); }
  }

  /** Python's `str.isspace` code points. */
  predicate IsSpace(c: char) {
    || c == ' ' || '\t' <= c <= '\r' || '\U{1C}' <= c <= '\U{1F}' || c == '\U{85}' || c == '\U{A0}'
    || c == '\U{1680}' || '\U{2000}' <= c <= '\U{200A}' || c == '\U{2028}' || c == '\U{2029}'
    || c == '\U{202F}' || c == '\U{205F}' || c == '\U{3000}'
  }

  /** `not text.strip()`. */
  predicate Blank(text: string) { forall c :: c in text ==> IsSpace(c) }

  // ------------------------------------------------------------ date order

  predicate Earlier(a: int, b: int) { a < b }

  lemma EarlierIsStrictOrder()
    ensures StrictOrder(Earlier)
  {
  }

  // --------------------------------------------------------- ordered listing

  ghost predicate Ascending<T>(q: seq<T>, less: (T, T) -> bool) {
    forall i, j :: 0 <= i < j < |q| ==> less(q[i], q[j])
  }

  ghost predicate IsLeast<T>(s: set<T>, less: (T, T) -> bool, m: T) {
    m in s && forall x :: x in s ==> x == m || less(m, x)
  }

  lemma {:induction false} HasLeast<T(!new)>(s: set<T>, less: (T, T) -> bool)
    requires StrictOrder(less)
    requires s != {}
    ensures exists m :: IsLeast(s, less, m)
    decreases |s|
  {
    var a :| a in s;
    var rest := s - {a};
    if rest == {} {
      assert s == {a};
      assert IsLeast(s, less, a);
    } else {
      HasLeast(rest, less);
      var m :| IsLeast(rest, less, m);
      LeastOfTwo(s, less, a, m);
    }
  }

  lemma LeastOfTwo<T(!new)>(s: set<T>, less: (T, T) -> bool, a: T, m: T)
    requires StrictOrder(less)
    requires a in s && IsLeast(s - {a}, less, m)
    ensures IsLeast(s, less, if less(a, m) then a else m)
  {
    var least := if less(a, m) then a else m;
    forall x | x in s && x != least ensures less(least, x) {
      if x != a {
        assert x in s - {a};
        assert less(a, m) && less(m, x) ==> less(a, x);
      }
    }
  }

  ghost function Least<T(!new)>(s: set<T>, less: (T, T) -> bool): (m: T)
    requires StrictOrder(less)
    requires s != {}
    ensures IsLeast(s, less, m)
  {
    HasLeast(s, less);
    var m :| IsLeast(s, less, m);
    m
  }

  /** The elements of a set in ascending order, as `ORDER BY` and `sorted` list them. */
  ghost function Sorted<T(!new)>(s: set<T>, less: (T, T) -> bool): (q: seq<T>)
    requires StrictOrder(less)
    ensures Ascending(q, less)
    ensures forall x :: x in q <==> x in s
    ensures |q| == |s|
    decreases |s|
  {
    if s == {} then [] else
    var m := Least(s, less);
    [m] + Sorted(s - {m}, less)
  }

  /** Two ascending lists with the same elements are the same list. */
  lemma {:induction false} AscendingUnique<T(!new)>(p: seq<T>, q: seq<T>, less: (T, T) -> bool)
    requires StrictOrder(less)
    requires Ascending(p, less) && Ascending(q, less)
    requires forall x :: x in p <==> x in q
    ensures p == q
  {
    if p == [] {
      assert forall i :: 0 <= i < |q| ==> q[i] in p;
    } else {
      assert p[0] in q;
      assert q[0] in p;
      var i :| 0 <= i < |q| && q[i] == p[0];
      var j :| 0 <= j < |p| && p[j] == q[0];
      assert p[0] == q[0];
      forall x ensures x in p[1..] <==> x in q[1..] {
        if x in p[1..] {
          var k :| 0 <= k < |p[1..]| && p[1..][k] == x;
          assert p[k + 1] == x && x in p && x != p[0];
          assert x in q;
        }
        if x in q[1..] {
          var k :| 0 <= k < |q[1..]| && q[1..][k] == x;
          assert q[k + 1] == x && x in q && x != q[0];
          assert x in p;
        }
      }
      AscendingUnique(p[1..], q[1..], less);
      assert p == [p[0]] + p[1..] && q == [q[0]] + q[1..];
    }
  }

  lemma LeastIsUnique<T(!new)>(s: set<T>, less: (T, T) -> bool, m: T, n: T)
    requires StrictOrder(less)
    requires IsLeast(s, less, m) && IsLeast(s, less, n)
    ensures m == n
  {
    assert !(less(m, n) && less(n, m)) || less(m, m);
  }

  lemma SortedStep<T(!new)>(s: set<T>, less: (T, T) -> bool, m: T)
    requires StrictOrder(less) && IsLeast(s, less, m)
    ensures Sorted(s, less) == [m] + Sorted(s - {m}, less)
  {
    hide StrictOrder, IsLeast;
    assert s != {} by { LeastIsIn(s, less, m); }
    LeastIsUnique(s, less, m, Least(s, less));
  }

  lemma SortedNone<T(!new)>(less: (T, T) -> bool)
    requires StrictOrder(less)
    ensures Sorted({}, less) == []
  {
  }

  lemma LeastIsIn<T(!new)>(s: set<T>, less: (T, T) -> bool, m: T)
    requires IsLeast(s, less, m)
    ensures m in s
  {
  }

  /** Selection sort of a finite set: what every ordered listing in the model runs. */
  method List<T(!new)>(s: set<T>, less: (T, T) -> bool) returns (q: seq<T>)
    requires StrictOrder(less)
    ensures q == Sorted(s, less)
  {
    hide StrictOrder, IsLeast, Sorted;
    q := [];
    SortedNone(less);
    var todo := s;
    while todo != {}
      invariant q + Sorted(todo, less) == Sorted(s, less)
      decreases |todo|
    {
      var m := PickLeast(todo, less);
      SortedStep(todo, less, m);
      LeastIsIn(todo, less, m);
      assert q + [m] + Sorted(todo - {m}, less) == q + ([m] + Sorted(todo - {m}, less));
      q := q + [m];
      todo := todo - {m};
    }
  }

  method PickLeast<T(!new)>(s: set<T>, less: (T, T) -> bool) returns (m: T)
    requires StrictOrder(less)
    requires s != {}
    ensures IsLeast(s, less, m)
  {
    m :| m in s;
    var todo := s - {m};
    while todo != {}
      invariant m in s && todo <= s
      invariant IsLeast(s - todo, less, m)
      decreases |todo|
    {
      var x :| x in todo;
      assert s - todo + {x} - {x} == s - todo;
      LeastOfTwo(s - todo + {x}, less, x, m);
      assert s - (todo - {x}) == s - todo + {x};
      if less(x, m) {
        m := x;
      }
      todo := todo - {x};
    }
    assert s - todo == s;
  }
}
