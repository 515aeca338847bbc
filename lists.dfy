/**
 * `Array.prototype.filter` and the facts the components rely on when they
 * filter a list: the result is an order-preserving sublist holding exactly
 * the elements that pass, and an element count splits between a test and its
 * negation.
 */
module Lists {
  import opened Wrappers

  /** `a` is `b` with some elements dropped and the rest kept in order. */
  predicate IsSublist<T(==)>(a: seq<T>, b: seq<T>)
    decreases |b|
  {
    if a == [] then true
    else if b == [] then false
    else (a[0] == b[0] && IsSublist(a[1..], b[1..])) || IsSublist(a, b[1..])
  }

  /** `s.filter(keep)`. */
  function Filter<T>(keep: T -> bool, s: seq<T>): (r: seq<T>)
    ensures |r| <= |s|
  {
    if s == [] then []
    else (if keep(s[0]) then [s[0]] else []) + Filter(keep, s[1..])
  }

  /** How many elements of `s` pass `keep`. */
  function CountIf<T>(keep: T -> bool, s: seq<T>): nat {
    if s == [] then 0 else (if keep(s[0]) then 1 else 0) + CountIf(keep, s[1..])
  }

  lemma {:induction false} SublistTail<T>(a: seq<T>, b: seq<T>)
    requires b != [] && IsSublist(a, b[1..])
    ensures IsSublist(a, b)
  {
  }

  /**
   * The filtered list is an order-preserving sublist whose elements are
   * exactly the passing elements of the input, and it is as long as there are
   * passing elements.
   */
  lemma {:induction false} FilterSpec<T>(keep: T -> bool, s: seq<T>)
    ensures IsSublist(Filter(keep, s), s)
    ensures forall x | x in Filter(keep, s) :: x in s && keep(x)
    ensures forall x | x in s && keep(x) :: x in Filter(keep, s)
    ensures |Filter(keep, s)| == CountIf(keep, s)
    decreases |s|
  {
    if s != [] {
      FilterSpec(keep, s[1..]);
      var r := Filter(keep, s);
      var rest := Filter(keep, s[1..]);
      assert s == [s[0]] + s[1..];
      if keep(s[0]) {
        assert r == [s[0]] + rest && r[1..] == rest;
      } else {
        assert r == rest;
        SublistTail(r, s);
      }
    }
  }

  /**
   * Every element either passes a test or its complement: the two counts add
   * up to the length.
   */
  lemma {:induction false} CountSplit<T>(keep: T -> bool, drop: T -> bool, s: seq<T>)
    requires forall x :: drop(x) == !keep(x)
    ensures CountIf(keep, s) + CountIf(drop, s) == |s|
    decreases |s|
  {
    if s != [] {
      CountSplit(keep, drop, s[1..]);
    }
  }

  /** Filtering a list whose every element passes changes nothing. */
  lemma {:induction false} FilterAll<T>(keep: T -> bool, s: seq<T>)
    requires forall i | 0 <= i < |s| :: keep(s[i])
    ensures Filter(keep, s) == s
    decreases |s|
  {
    if s != [] {
      FilterAll(keep, s[1..]);
      assert [s[0]] + s[1..] == s;
    }
  }

  /** Filtering a list none of whose elements passes leaves nothing. */
  lemma {:induction false} FilterNone<T>(keep: T -> bool, s: seq<T>)
    requires forall i | 0 <= i < |s| :: !keep(s[i])
    ensures Filter(keep, s) == []
    decreases |s|
  {
    if s != [] {
      FilterNone(keep, s[1..]);
    }
  }

  /** Filtering distributes over concatenation. */
  lemma {:induction false} FilterConcat<T>(keep: T -> bool, a: seq<T>, b: seq<T>)
    ensures Filter(keep, a + b) == Filter(keep, a) + Filter(keep, b)
    decreases |a|
  {
    if a == [] {
      assert a + b == b;
    } else {
      FilterConcat(keep, a[1..], b);
      assert (a + b)[0] == a[0] && (a + b)[1..] == a[1..] + b;
      var x := if keep(a[0]) then [a[0]] else [];
      assert Filter(keep, a + b) == x + (Filter(keep, a[1..]) + Filter(keep, b));
      assert Filter(keep, a) == x + Filter(keep, a[1..]);
    }
  }

  /** The ends of a list decide the ends of its filtered list: a passing end is kept, a failing one is dropped. */
  lemma FilterEnds<T>(keep: T -> bool, s: seq<T>)
    requires s != []
    ensures keep(s[0]) ==> Filter(keep, s) != [] && Filter(keep, s)[0] == s[0]
    ensures !keep(s[0]) ==> Filter(keep, s) == Filter(keep, s[1..])
    ensures keep(s[|s| - 1]) ==> Filter(keep, s) != [] && Filter(keep, s)[|Filter(keep, s)| - 1] == s[|s| - 1]
    ensures !keep(s[|s| - 1]) ==> Filter(keep, s) == Filter(keep, s[..|s| - 1])
  {
    var n := |s|;
    assert s == s[..n - 1] + [s[n - 1]];
    FilterConcat(keep, s[..n - 1], [s[n - 1]]);
    assert Filter(keep, [s[n - 1]]) == if keep(s[n - 1]) then [s[n - 1]] else [];
  }

  /** Filtering twice with the same test changes nothing more. */
  lemma {:induction false} FilterIdempotent<T>(keep: T -> bool, s: seq<T>)
    ensures Filter(keep, Filter(keep, s)) == Filter(keep, s)
    decreases |s|
  {
    if s != [] {
      FilterIdempotent(keep, s[1..]);
      var r := Filter(keep, s);
      if keep(s[0]) {
        assert r == [s[0]] + Filter(keep, s[1..]);
        assert r != [] && r[0] == s[0] && r[1..] == Filter(keep, s[1..]);
        assert Filter(keep, r) == [r[0]] + Filter(keep, r[1..]);
      } else {
        assert r == Filter(keep, s[1..]);
      }
    }
  }

  /**
   * `s.map(f)` where `f` may throw: the mapped list, or `None` as soon as one
   * element fails.
   */
  function MapAll<A, B>(f: A -> Option<B>, s: seq<A>): Option<seq<B>> {
    if s == [] then Some([])
    else match f(s[0])
      case None => None
      case Some(b) =>
        match MapAll(f, s[1..])
        case None => None
        case Some(rest) => Some([b] + rest)
  }

  /**
   * The map succeeds exactly when every element succeeds, and then it holds
   * each element's result at that element's position.
   */
  lemma {:induction false} MapAllSpec<A, B>(f: A -> Option<B>, s: seq<A>)
    ensures MapAll(f, s).Some? <==> forall i | 0 <= i < |s| :: f(s[i]).Some?
    ensures MapAll(f, s).Some? ==>
              |MapAll(f, s).value| == |s| && forall i | 0 <= i < |s| :: Some(MapAll(f, s).value[i]) == f(s[i])
    decreases |s|
  {
    if s != [] {
      MapAllSpec(f, s[1..]);
      assert forall i | 1 <= i < |s| :: s[i] == s[1..][i - 1];
      if MapAll(f, s).Some? {
        var r := MapAll(f, s).value;
        var rest := MapAll(f, s[1..]).value;
        assert r == [f(s[0]).value] + rest;
        forall i | 0 <= i < |s|
          ensures Some(r[i]) == f(s[i])
        {
          if i > 0 {
            assert r[i] == rest[i - 1];
          }
        }
      }
    }
  }

  /** `s.map(x => hit(x) ? f(x) : x)`: an update of the rows a filter selects. */
  function MapWhere<T>(hit: T -> bool, f: T -> T, s: seq<T>): (r: seq<T>)
    ensures |r| == |s|
    ensures forall i | 0 <= i < |s| :: r[i] == if hit(s[i]) then f(s[i]) else s[i]
  {
    seq(|s|, i requires 0 <= i < |s| => if hit(s[i]) then f(s[i]) else s[i])
  }

  /**
   * Updating a second time changes nothing more when the update keeps a
   * selected row selected and is idempotent on it.
   */
  lemma MapWhereTwice<T>(hit: T -> bool, f: T -> T, s: seq<T>)
    requires forall x | hit(x) :: hit(f(x)) && f(f(x)) == f(x)
    ensures MapWhere(hit, f, MapWhere(hit, f, s)) == MapWhere(hit, f, s)
  {
    var once := MapWhere(hit, f, s);
    assert forall i | 0 <= i < |s| :: MapWhere(hit, f, once)[i] == once[i];
  }

  /** No element occurs twice. */
  predicate Distinct<T(==)>(s: seq<T>) {
    forall i, j | 0 <= i < j < |s| :: s[i] != s[j]
  }

  /**
   * The distinct elements of `s` in order of first appearance: the keys of
   * an object filled from `s` one element at a time.
   */
  function Dedup<T(==)>(s: seq<T>): seq<T>
    decreases |s|
  {
    if s == [] then []
    else
      var d := Dedup(s[..|s| - 1]);
      if s[|s| - 1] in d then d else d + [s[|s| - 1]]
  }

  /** How often `x` occurs in `s`, counted from the end. */
  function Occurrences<T(==)>(s: seq<T>, x: T): nat
    decreases |s|
  {
    if s == [] then 0 else Occurrences(s[..|s| - 1], x) + (if s[|s| - 1] == x then 1 else 0)
  }

  /** `Dedup` keeps exactly the elements of its input, each once. */
  lemma {:induction false} DedupSpec<T>(s: seq<T>)
    ensures forall x :: x in Dedup(s) <==> x in s
    ensures Distinct(Dedup(s))
    ensures |Dedup(s)| <= |s|
    decreases |s|
  {
    if s != [] {
      var init := s[..|s| - 1];
      DedupSpec(init);
      assert s == init + [s[|s| - 1]];
    }
  }

  /** An element occurs at least once exactly when it is in the list. */
  lemma {:induction false} OccurrencesSpec<T>(s: seq<T>, x: T)
    ensures Occurrences(s, x) > 0 <==> x in s
    ensures Occurrences(s, x) <= |s|
    decreases |s|
  {
    if s != [] {
      var init := s[..|s| - 1];
      OccurrencesSpec(init, x);
      assert s == init + [s[|s| - 1]];
    }
  }
}
