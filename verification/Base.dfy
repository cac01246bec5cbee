/** Datatypes and sequence functions shared by the other modules. */
module Base {

  datatype Option<+T> = None | Some(value: T)

  ghost predicate NoDup<T>(s: seq<T>) {
    forall i, j | 0 <= i < j < |s| :: s[i] != s[j]
  }

  function Elems<T>(s: seq<T>): set<T> {
    set x | x in s
  }

  /** `s` without its first occurrence of `x`. */
  function Remove<T(==)>(s: seq<T>, x: T): seq<T> {
    if s == [] then [] else if s[0] == x then s[1..] else [s[0]] + Remove(s[1..], x)
  }

  function Reverse<T>(s: seq<T>): (r: seq<T>)
    ensures |r| == |s|
    ensures forall i | 0 <= i < |s| :: r[i] == s[|s| - 1 - i]
  {
    if s == [] then [] else Reverse(s[1..]) + [s[0]]
  }

  lemma {:induction false} RemoveMembers<T>(s: seq<T>, x: T)
    ensures forall y | y != x :: y in Remove(s, x) <==> y in s
    ensures forall y | y in Remove(s, x) :: y in s
    ensures x !in s ==> Remove(s, x) == s
  {
    if s != [] {
      RemoveMembers(s[1..], x);
      assert s == [s[0]] + s[1..];
    }
  }

  lemma {:induction false} RemoveNoDup<T>(s: seq<T>, x: T)
    requires NoDup(s)
    ensures NoDup(Remove(s, x)) && x !in Remove(s, x)
  {
    if s != [] {
      RemoveNoDup(s[1..], x);
      RemoveMembers(s[1..], x);
      assert s == [s[0]] + s[1..];
      assert s[0] !in s[1..];
    }
  }

  lemma NoElements<T>(s: seq<T>)
    ensures s == [] || s[0] in s
  {
  }

  /** Removal keeps the relative order of what is left. */
  lemma {:induction false} RemoveSplit<T>(s: seq<T>, x: T) returns (i: nat)
    requires x in s
    ensures i < |s| && s[i] == x && x !in s[..i]
    ensures Remove(s, x) == s[..i] + s[i + 1..]
  {
    if s[0] == x {
      i := 0;
    } else {
      i := RemoveSplit(s[1..], x);
      i := i + 1;
      assert s[..i] == [s[0]] + s[1..][..i - 1];
      assert s[1..][i..] == s[i + 1..];
    }
  }

  /** The elements of `s` that are in `x`, in order. */
  function Within<T(==)>(s: seq<T>, x: set<T>): seq<T> {
    if s == [] then [] else (if s[0] in x then [s[0]] else []) + Within(s[1..], x)
  }

  /** The elements of `s` that are not, in order. */
  function Minus<T(==)>(s: seq<T>, x: set<T>): seq<T> {
    if s == [] then [] else (if s[0] in x then [] else [s[0]]) + Minus(s[1..], x)
  }

  lemma {:induction false} SplitMembers<T>(s: seq<T>, x: set<T>)
    ensures forall y :: y in Within(s, x) <==> y in s && y in x
    ensures forall y :: y in Minus(s, x) <==> y in s && y !in x
    ensures Within(s, x) == [] ==> Minus(s, x) == s
  {
    if s != [] {
      SplitMembers(s[1..], x);
      assert s == [s[0]] + s[1..];
    }
  }

  lemma {:induction false} WithinSnoc<T>(s: seq<T>, y: T, x: set<T>)
    ensures Within(s + [y], x) == Within(s, x) + (if y in x then [y] else [])
  {
    if s == [] {
      assert s + [y] == [y];
    } else {
      assert (s + [y])[1..] == s[1..] + [y];
      WithinSnoc(s[1..], y, x);
    }
  }

  lemma {:induction false} MinusSnoc<T>(s: seq<T>, y: T, x: set<T>)
    ensures Minus(s + [y], x) == Minus(s, x) + (if y in x then [] else [y])
  {
    if s == [] {
      assert s + [y] == [y];
    } else {
      assert (s + [y])[1..] == s[1..] + [y];
      MinusSnoc(s[1..], y, x);
    }
  }

  /** Moving an element's fellows of `x` to the front, seen from the first element. */
  lemma SplitCons<T>(r: T, rest: seq<T>, x: set<T>)
    ensures Within([r] + rest, x) == (if r in x then [r] else []) + Within(rest, x)
    ensures Minus([r] + rest, x) == (if r in x then [] else [r]) + Minus(rest, x)
  {
    assert ([r] + rest)[1..] == rest;
  }

  lemma {:induction false} MinusTwice<T>(s: seq<T>, x: set<T>, y: set<T>)
    ensures Minus(Minus(s, x), y) == Minus(s, x + y)
  {
    if s != [] {
      MinusTwice(s[1..], x, y);
      if s[0] !in x {
        assert Minus(s, x)[1..] == Minus(s[1..], x);
      } else {
        assert Minus(s, x) == Minus(s[1..], x);
      }
    }
  }

  lemma {:induction false} MinusAgree<T>(s: seq<T>, x: set<T>, y: set<T>)
    requires forall z | z in s :: z in x <==> z in y
    ensures Minus(s, x) == Minus(s, y)
  {
    if s != [] {
      assert s == [s[0]] + s[1..];
      MinusAgree(s[1..], x, y);
    }
  }

  lemma ReverseConcat<T>(a: seq<T>, b: seq<T>)
    ensures Reverse(a + b) == Reverse(b) + Reverse(a)
  {
  }

  lemma ReverseSnoc<T>(s: seq<T>, x: T)
    ensures Reverse(s + [x]) == [x] + Reverse(s)
  {
    hide Reverse;
    forall i | 0 <= i <= |s| ensures Reverse(s + [x])[i] == ([x] + Reverse(s))[i] {
      assert Reverse(s + [x])[i] == (s + [x])[|s| - i];
    }
  }

  lemma ReverseInjective<T>(a: seq<T>, b: seq<T>)
    ensures Reverse(a) == Reverse(b) <==> a == b
  {
    if Reverse(a) == Reverse(b) {
      forall i | 0 <= i < |a| ensures a[i] == b[i] {
        assert a[i] == Reverse(a)[|a| - 1 - i] && b[i] == Reverse(b)[|b| - 1 - i];
      }
    }
  }

  lemma {:induction false} MinusConcat<T>(a: seq<T>, b: seq<T>, x: set<T>)
    ensures Minus(a + b, x) == Minus(a, x) + Minus(b, x)
  {
    if a == [] {
      assert a + b == b;
    } else {
      assert (a + b)[1..] == a[1..] + b;
      MinusConcat(a[1..], b, x);
    }
  }

  lemma {:induction false} MinusAll<T>(s: seq<T>, x: set<T>)
    ensures (forall y | y in s :: y in x) ==> Minus(s, x) == []
    ensures (forall y | y in s :: y !in x) ==> Minus(s, x) == s
  {
    if s != [] {
      assert s == [s[0]] + s[1..];
      MinusAll(s[1..], x);
    }
  }

  /** Bringing some elements to the front changes nothing exactly when they stand there already. */
  lemma FrontIsPrefix<T>(front: seq<T>, s: seq<T>)
    requires NoDup(s)
    ensures front + Minus(s, Elems(front)) == s <==> front <= s
  {
    if front <= s {
      var rest := s[|front|..];
      assert s == front + rest;
      Apart(front, rest);
      hide Minus, NoDup;
      MinusConcat(front, rest, Elems(front));
      MinusAll(front, Elems(front));
      MinusAll(rest, Elems(front));
      assert [] + rest == rest;
    }
  }

  lemma Apart<T>(front: seq<T>, rest: seq<T>)
    requires NoDup(front + rest)
    ensures forall y | y in rest :: y !in front
  {
    forall y | y in rest ensures y !in front {
      var j :| 0 <= j < |rest| && rest[j] == y;
      assert (front + rest)[|front| + j] == y;
      assert forall i | 0 <= i < |front| :: (front + rest)[i] == front[i];
    }
  }
}
