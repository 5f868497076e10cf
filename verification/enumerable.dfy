/**
 * The LINQ query operators the analytics queries are built from, over a
 * sequence in source order: Where, a stable OrderBy by an integer key,
 * First/Last, Max and Min by a selector.
 */
module Enumerable {

  /** Where(f): the elements satisfying `f`, in source order. */
  function Where<T(==,!new)>(s: seq<T>, f: T -> bool): (m: seq<T>)
    ensures |m| <= |s|
    ensures forall i :: 0 <= i < |m| ==> f(m[i])
  {
    if s == [] then []
    else
      var rest := Where(s[1..], f);
      if f(s[0]) then
        assert forall i :: 0 < i < |rest| + 1 ==> ([s[0]] + rest)[i] == rest[i - 1];
        [s[0]] + rest
      else rest
  }

  /** Where keeps exactly the elements of `s` that satisfy `f`. */
  lemma {:induction false} WhereMembers<T(!new)>(s: seq<T>, f: T -> bool, x: T)
    ensures x in Where(s, f) <==> x in s && f(x)
  {
    if s != [] {
      WhereMembers(s[1..], f, x);
      assert s == [s[0]] + s[1..];
    }
  }

  lemma WhereUnfold<T(!new)>(s: seq<T>, f: T -> bool)
    requires s != []
    ensures f(s[0]) ==> Where(s, f) == [s[0]] + Where(s[1..], f)
    ensures !f(s[0]) ==> Where(s, f) == Where(s[1..], f)
  {
  }

  /** Where keeps source order: it distributes over concatenation. */
  lemma {:induction false} WhereAppend<T(!new)>(a: seq<T>, b: seq<T>, f: T -> bool)
    ensures Where(a + b, f) == Where(a, f) + Where(b, f)
  {
    if a != [] {
      assert (a + b)[0] == a[0];
      assert (a + b)[1..] == a[1..] + b;
      WhereAppend(a[1..], b, f);
      var head := if f(a[0]) then [a[0]] else [];
      calc {
        Where(a + b, f);
        head + Where(a[1..] + b, f);
        head + (Where(a[1..], f) + Where(b, f));
        (head + Where(a[1..], f)) + Where(b, f);
        Where(a, f) + Where(b, f);
      }
    } else {
      assert a + b == b;
    }
  }

  /** Two filters that agree on every element select the same subsequence. */
  lemma {:induction false} WhereAgree<T(!new)>(s: seq<T>, f: T -> bool, g: T -> bool)
    requires forall x :: x in s ==> f(x) == g(x)
    ensures Where(s, f) == Where(s, g)
  {
    if s != [] {
      WhereAgree(s[1..], f, g);
    }
  }

  /** Filtering by a stronger condition after a weaker one is the same as filtering by the stronger one alone. */
  lemma {:induction false} WhereNarrows<T(!new)>(s: seq<T>, g: T -> bool, f: T -> bool)
    requires forall x :: f(x) ==> g(x)
    ensures Where(Where(s, g), f) == Where(s, f)
  {
    if s != [] {
      WhereUnfold(s, g);
      WhereUnfold(s, f);
      WhereNarrows(s[1..], g, f);
      if g(s[0]) {
        WhereUnfold(Where(s, g), f);
        assert Where(s, g)[1..] == Where(s[1..], g);
      }
    }
  }

  /** Contains(x): whether some element equals `x`, by default equality. */
  function Contains<T(==)>(s: seq<T>, x: T): (b: bool)
    ensures b <==> exists i :: 0 <= i < |s| && s[i] == x
  {
    if s == [] then false
    else if s[0] == x then true
    else
      var rest := Contains(s[1..], x);
      assert forall i :: 0 < i < |s| ==> s[i] == s[1..][i - 1];
      rest
  }

  predicate SortedBy<T(!new)>(s: seq<T>, key: T -> int) {
    forall i, j :: 0 <= i < j < |s| ==> key(s[i]) <= key(s[j])
  }

  /**
   * Puts `x` into `s` ahead of the first element whose key is the same as or
   * larger than its own. When `s` is sorted and `x` came before all of `s`
   * in the input, elements with equal keys keep their input order.
   */
  function Insert<T(==,!new)>(x: T, s: seq<T>, key: T -> int): (o: seq<T>)
    ensures multiset(o) == multiset(s) + multiset{x}
    ensures |o| == |s| + 1
  {
    if s == [] || key(x) <= key(s[0]) then
      [x] + s
    else
      assert s == [s[0]] + s[1..];
      [s[0]] + Insert(x, s[1..], key)
  }

  /** Every element of `Insert(x, s, key)` has a key of at least `b` when `x` and all of `s` do. */
  lemma InsertLowerBound<T(!new)>(x: T, s: seq<T>, key: T -> int, b: int)
    requires b <= key(x) && forall k :: 0 <= k < |s| ==> b <= key(s[k])
    ensures forall k :: 0 <= k < |Insert(x, s, key)| ==> b <= key(Insert(x, s, key)[k])
  {
    var o := Insert(x, s, key);
    forall k | 0 <= k < |o| ensures b <= key(o[k]) {
      assert o[k] in multiset(s) + multiset{x};
      if o[k] != x {
        assert o[k] in s;
      }
    }
  }

  /** Inserting into a sorted sequence keeps it sorted. */
  lemma {:induction false} InsertKeepsSorted<T(!new)>(x: T, s: seq<T>, key: T -> int)
    requires SortedBy(s, key)
    ensures SortedBy(Insert(x, s, key), key)
  {
    if s != [] && key(s[0]) < key(x) {
      var tail := Insert(x, s[1..], key);
      InsertKeepsSorted(x, s[1..], key);
      InsertLowerBound(x, s[1..], key, key(s[0]));
      var o := [s[0]] + tail;
      forall i, j | 0 <= i < j < |o| ensures key(o[i]) <= key(o[j]) {
        assert o[j] == tail[j - 1];
        if i > 0 {
          assert o[i] == tail[i - 1];
        }
      }
    }
  }

  /**
   * After inserting into a sorted sequence, `x` is first when no element has
   * a smaller key, and last only when every element has a smaller key: an
   * element with the same key as `x` stays after it.
   */
  lemma {:induction false} InsertEnds<T(!new)>(x: T, s: seq<T>, key: T -> int)
    requires SortedBy(s, key)
    ensures Insert(x, s, key)[0] == if s == [] || key(x) <= key(s[0]) then x else s[0]
    ensures var o := Insert(x, s, key);
      o[|o| - 1] == if s != [] && key(x) <= key(s[|s| - 1]) then s[|s| - 1] else x
    decreases |s|
  {
    if s != [] && key(s[0]) < key(x) {
      InsertEnds(x, s[1..], key);
    }
  }

  /**
   * OrderBy(key): a stable sort by `key` (insertion sort, each element put in
   * front of the equal keys of the elements after it). Its contract states
   * the sorted permutation; stability is stated through its consequences for
   * the ends of the result, in FirstOfOrdered and LastOfOrdered.
   */
  function OrderBy<T(==,!new)>(s: seq<T>, key: T -> int): (o: seq<T>)
    ensures SortedBy(o, key)
    ensures multiset(o) == multiset(s)
    ensures |o| == |s|
  {
    if s == [] then []
    else
      assert s == [s[0]] + s[1..];
      InsertKeepsSorted(s[0], OrderBy(s[1..], key), key);
      Insert(s[0], OrderBy(s[1..], key), key)
  }

  lemma OrderByUnfold<T(!new)>(x: T, s: seq<T>, key: T -> int)
    ensures OrderBy([x] + s, key) == Insert(x, OrderBy(s, key), key)
    ensures var o := OrderBy([x] + s, key); var t := OrderBy(s, key);
      && o[0] == (if t == [] || key(x) <= key(t[0]) then x else t[0])
      && o[|o| - 1] == (if t != [] && key(x) <= key(t[|t| - 1]) then t[|t| - 1] else x)
  {
    assert ([x] + s)[1..] == s;
    InsertEnds(x, OrderBy(s, key), key);
  }

  /** Sorting neither adds nor drops elements. */
  lemma OrderByMembers<T(!new)>(s: seq<T>, key: T -> int, x: T)
    ensures x in OrderBy(s, key) <==> x in s
  {
    assert x in OrderBy(s, key) <==> x in multiset(OrderBy(s, key));
    assert x in s <==> x in multiset(s);
  }

  /** Max(selector): the largest selected value, taken by some element. */
  function Max<T(==,!new)>(s: seq<T>, sel: T -> real): (m: real)
    requires s != []
    ensures exists x :: x in s && sel(x) == m
    ensures forall x :: x in s ==> sel(x) <= m
  {
    if |s| == 1 then sel(s[0])
    else
      var rest := Max(s[1..], sel);
      assert s == [s[0]] + s[1..];
      if sel(s[0]) >= rest then sel(s[0]) else rest
  }

  /** Min(selector): the smallest selected value, taken by some element. */
  function Min<T(==,!new)>(s: seq<T>, sel: T -> real): (m: real)
    requires s != []
    ensures exists x :: x in s && sel(x) == m
    ensures forall x :: x in s ==> m <= sel(x)
  {
    if |s| == 1 then sel(s[0])
    else
      var rest := Min(s[1..], sel);
      assert s == [s[0]] + s[1..];
      if sel(s[0]) <= rest then sel(s[0]) else rest
  }

  /** Max and Min depend only on which elements occur, not on their order or repetition. */
  lemma ExtremesDependOnMembersOnly<T(!new)>(s: seq<T>, s': seq<T>, sel: T -> real)
    requires s != [] && forall x :: x in s <==> x in s'
    ensures s' != []
    ensures Max(s, sel) == Max(s', sel) && Min(s, sel) == Min(s', sel)
  {
    assert s[0] in s';
    var a :| a in s && sel(a) == Max(s, sel);
    var b :| b in s' && sel(b) == Max(s', sel);
    var c :| c in s && sel(c) == Min(s, sel);
    var d :| d in s' && sel(d) == Min(s', sel);
    assert a in s' && b in s && c in s' && d in s;
  }

  /**
   * Element `i` is the first of the selected elements by `key`: no selected
   * element has a smaller key, and every selected element before it in
   * source order has a strictly larger one.
   */
  ghost predicate IsFirstBy<T(!new)>(s: seq<T>, f: T -> bool, key: T -> int, i: int) {
    && 0 <= i < |s| && f(s[i])
    && (forall j :: 0 <= j < |s| && f(s[j]) ==> key(s[i]) <= key(s[j]))
    && (forall j :: 0 <= j < i && f(s[j]) ==> key(s[i]) < key(s[j]))
  }

  /**
   * Element `i` is the last of the selected elements by `key`: no selected
   * element has a larger key, and every selected element after it in source
   * order has a strictly smaller one.
   */
  ghost predicate IsLastBy<T(!new)>(s: seq<T>, f: T -> bool, key: T -> int, i: int) {
    && 0 <= i < |s| && f(s[i])
    && (forall j :: 0 <= j < |s| && f(s[j]) ==> key(s[j]) <= key(s[i]))
    && (forall j :: i < j < |s| && f(s[j]) ==> key(s[j]) < key(s[i]))
  }

  /** An element that survives Where and OrderBy stands at some index of the input and is selected. */
  lemma SelectedAt<T(!new)>(s: seq<T>, f: T -> bool, key: T -> int, x: T) returns (j: int)
    requires x in OrderBy(Where(s, f), key)
    ensures 0 <= j < |s| && s[j] == x && f(x)
  {
    OrderByMembers(Where(s, f), key, x);
    WhereMembers(s, f, x);
    j :| 0 <= j < |s| && s[j] == x;
  }

  lemma IsFirstByTail<T(!new)>(s: seq<T>, f: T -> bool, key: T -> int, i: int)
    requires IsFirstBy(s, f, key, i) && i > 0
    ensures IsFirstBy(s[1..], f, key, i - 1)
  {
    var rest := s[1..];
    forall j | 0 <= j < |rest| && f(rest[j]) ensures key(rest[i - 1]) <= key(rest[j]) {
      assert rest[j] == s[j + 1];
    }
  }

  lemma IsLastByTail<T(!new)>(s: seq<T>, f: T -> bool, key: T -> int, i: int)
    requires IsLastBy(s, f, key, i) && i > 0
    ensures IsLastBy(s[1..], f, key, i - 1)
  {
    var rest := s[1..];
    forall j | 0 <= j < |rest| && f(rest[j]) ensures key(rest[j]) <= key(rest[i - 1]) {
      assert rest[j] == s[j + 1];
    }
    forall j | i - 1 < j < |rest| && f(rest[j]) ensures key(rest[j]) < key(rest[i - 1]) {
      assert rest[j] == s[j + 1];
    }
  }

  /** Where then OrderBy puts the first selected element by key, ties going to source order, at the front. */
  lemma {:induction false} FirstOfOrdered<T(!new)>(s: seq<T>, f: T -> bool, key: T -> int, i: int)
    requires IsFirstBy(s, f, key, i)
    ensures OrderBy(Where(s, f), key) != []
    ensures OrderBy(Where(s, f), key)[0] == s[i]
  {
    var rest := s[1..];
    WhereUnfold(s, f);
    var t := OrderBy(Where(rest, f), key);
    if i == 0 {
      OrderByUnfold(s[0], Where(rest, f), key);
      if t != [] {
        var j := SelectedAt(rest, f, key, t[0]);
        assert s[j + 1] == t[0];
      }
    } else {
      IsFirstByTail(s, f, key, i);
      FirstOfOrdered(rest, f, key, i - 1);
      if f(s[0]) {
        OrderByUnfold(s[0], Where(rest, f), key);
      }
    }
  }

  /** Where then OrderBy puts the last selected element by key, ties going to source order, at the back. */
  lemma {:induction false} LastOfOrdered<T(!new)>(s: seq<T>, f: T -> bool, key: T -> int, i: int)
    requires IsLastBy(s, f, key, i)
    ensures OrderBy(Where(s, f), key) != []
    ensures var o := OrderBy(Where(s, f), key); o[|o| - 1] == s[i]
  {
    var rest := s[1..];
    WhereUnfold(s, f);
    var t := OrderBy(Where(rest, f), key);
    if i == 0 {
      OrderByUnfold(s[0], Where(rest, f), key);
      if t != [] {
        var j := SelectedAt(rest, f, key, t[|t| - 1]);
        assert s[j + 1] == t[|t| - 1];
      }
    } else {
      IsLastByTail(s, f, key, i);
      LastOfOrdered(rest, f, key, i - 1);
      if f(s[0]) {
        OrderByUnfold(s[0], Where(rest, f), key);
      }
    }
  }

  /** Whenever some element is selected, a first and a last selected element by key exist. */
  lemma {:induction false} FirstAndLastExist<T(!new)>(s: seq<T>, f: T -> bool, key: T -> int)
    requires exists x :: x in s && f(x)
    ensures exists i :: IsFirstBy(s, f, key, i)
    ensures exists i :: IsLastBy(s, f, key, i)
  {
    var x, rest := s[0], s[1..];
    assert s == [x] + rest;
    if !exists y :: y in rest && f(y) {
      forall j | 0 < j < |s| ensures !f(s[j]) {
        assert s[j] in rest;
      }
      assert IsFirstBy(s, f, key, 0);
      assert IsLastBy(s, f, key, 0);
    } else {
      FirstAndLastExist(rest, f, key);
      var e :| IsFirstBy(rest, f, key, e);
      var l :| IsLastBy(rest, f, key, l);
      if f(x) && key(x) <= key(rest[e]) {
        assert IsFirstBy(s, f, key, 0) by {
          forall j | 0 <= j < |s| && f(s[j]) ensures key(x) <= key(s[j]) {
            if j > 0 { assert s[j] == rest[j - 1]; }
          }
        }
      } else {
        assert IsFirstBy(s, f, key, e + 1) by {
          forall j | 0 <= j < |s| && f(s[j]) ensures key(s[e + 1]) <= key(s[j]) {
            if j > 0 { assert s[j] == rest[j - 1]; }
          }
          forall j | 0 <= j < e + 1 && f(s[j]) ensures key(s[e + 1]) < key(s[j]) {
            if j > 0 { assert s[j] == rest[j - 1]; }
          }
        }
      }
      if f(x) && key(rest[l]) < key(x) {
        assert IsLastBy(s, f, key, 0) by {
          forall j | 0 <= j < |s| && f(s[j]) ensures key(s[j]) <= key(x) {
            if j > 0 { assert s[j] == rest[j - 1]; }
          }
          forall j | 0 < j < |s| && f(s[j]) ensures key(s[j]) < key(x) {
            assert s[j] == rest[j - 1];
          }
        }
      } else {
        assert IsLastBy(s, f, key, l + 1) by {
          forall j | 0 <= j < |s| && f(s[j]) ensures key(s[j]) <= key(s[l + 1]) {
            if j > 0 { assert s[j] == rest[j - 1]; }
          }
          forall j | l + 1 < j < |s| && f(s[j]) ensures key(s[j]) < key(s[l + 1]) {
            assert s[j] == rest[j - 1];
          }
        }
      }
    }
  }
}
