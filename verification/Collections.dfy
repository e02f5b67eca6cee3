/** Small facts about finite sets, sums and order that the model's proofs share. */
module Collections {
  datatype Option<+T> = None | Some(value: T)

  function Max(a: int, b: int): int {
    if a >= b then a else b
  }

  function Min(a: int, b: int): int {
    if a <= b then a else b
  }

  /** Some element of a non-empty set. */
  ghost function Pick<T>(a: set<T>): (x: T)
    requires a != {}
    ensures x in a
  {
    var x :| x in a; x
  }

  /** One element of a non-empty set, whichever comes first. */
  method TakeOne<T>(a: set<T>) returns (x: T)
    requires a != {}
    ensures x in a
  {
    ghost var some := Pick(a);
    x :| x in a;
  }

  /** An order in which the elements of a set may come, each once. */
  ghost predicate Enumerates<T>(order: seq<T>, a: set<T>) {
    && (forall i, j :: 0 <= i < j < |order| ==> order[i] != order[j])
    && (forall i :: 0 <= i < |order| ==> order[i] in a)
    && (forall x :: x in a ==> x in order)
  }

  lemma {:induction false} DropOne<T>(order: seq<T>, a: set<T>, j: nat)
    requires Enumerates(order, a) && j < |order|
    ensures Enumerates(order[..j] + order[j + 1..], a - {order[j]})
  {
    var rest := order[..j] + order[j + 1..];
    forall x | x in a - {order[j]}
      ensures x in rest
    {
      var i :| 0 <= i < |order| && order[i] == x;
      assert rest[if i < j then i else i - 1] == x;
    }
  }

  lemma {:induction false} EnumeratesCard<T>(order: seq<T>, a: set<T>)
    requires Enumerates(order, a)
    ensures |order| == |a|
    decreases |order|
  {
    if |order| > 0 {
      DropOne(order, a, 0);
      EnumeratesCard(order[..0] + order[1..], a - {order[0]});
    } else {
      assert a == {};
    }
  }

  /** The elements of a set, in some order. */
  method ListAll<T>(a: set<T>) returns (order: seq<T>)
    ensures Enumerates(order, a)
  {
    order := [];
    var rest := a;
    while rest != {}
      invariant rest <= a && Enumerates(order, a - rest)
      decreases rest
    {
      var x := TakeOne(rest);
      order := order + [x];
      rest := rest - {x};
    }
  }

  /** How often a value occurs in a list. */
  function Copies<T(==)>(s: seq<T>, x: T): nat {
    if |s| == 0 then 0 else (if s[0] == x then 1 else 0) + Copies(s[1..], x)
  }

  /** The same values, each as often, in some other order. */
  ghost predicate Permuted<T(!new)>(a: seq<T>, b: seq<T>) {
    forall x :: Copies(a, x) == Copies(b, x)
  }

  lemma {:induction false} CopiesOfAppend<T>(a: seq<T>, b: seq<T>, x: T)
    ensures Copies(a + b, x) == Copies(a, x) + Copies(b, x)
  {
    if |a| == 0 {
      assert a + b == b;
    } else {
      assert (a + b)[1..] == a[1..] + b;
      CopiesOfAppend(a[1..], b, x);
    }
  }

  lemma {:induction false} CopiesOfMember<T>(s: seq<T>, x: T)
    ensures Copies(s, x) > 0 <==> x in s
  {
    if |s| > 0 {
      CopiesOfMember(s[1..], x);
      assert s == [s[0]] + s[1..];
    }
  }

  lemma {:induction false} CopiesWithout<T>(s: seq<T>, j: nat, x: T)
    requires j < |s|
    ensures Copies(s, x) == Copies(s[..j] + s[j + 1..], x) + if x == s[j] then 1 else 0
  {
    if j == 0 {
      assert s[..0] + s[1..] == s[1..];
    } else {
      CopiesWithout(s[1..], j - 1, x);
      var rest := s[..j] + s[j + 1..];
      assert rest[1..] == s[1..][..j - 1] + s[1..][j..];
    }
  }

  /** Taking one value from each of two permuted lists leaves permuted lists. */
  lemma {:induction false} PermutedRest<T(!new)>(a: seq<T>, b: seq<T>) returns (j: nat)
    requires Permuted(a, b) && |a| > 0
    ensures j < |b| && b[j] == a[0] && Permuted(a[1..], b[..j] + b[j + 1..])
  {
    CopiesOfMember(b, a[0]);
    assert Copies(a, a[0]) > 0;
    j :| 0 <= j < |b| && b[j] == a[0];
    forall x
      ensures Copies(a[1..], x) == Copies(b[..j] + b[j + 1..], x)
    {
      CopiesWithout(b, j, x);
      assert Copies(a, x) == Copies(b, x);
    }
  }

  lemma {:induction false} PermutedOneMore<T(!new)>(a: seq<T>, b: seq<T>, j: nat)
    requires |a| > 0 && j < |b| && a[0] == b[j] && Permuted(a[..0] + a[1..], b[..j] + b[j + 1..])
    ensures Permuted(a, b)
  {
    forall x
      ensures Copies(a, x) == Copies(b, x)
    {
      CopiesWithout(a, 0, x);
      CopiesWithout(b, j, x);
      assert Copies(a[..0] + a[1..], x) == Copies(b[..j] + b[j + 1..], x);
    }
  }

  lemma {:induction false} PermutedSelf<T(!new)>(a: seq<T>)
    ensures Permuted(a, a)
  {
  }

  lemma {:induction false} PermutedEmpty<T(!new)>(a: seq<T>, b: seq<T>)
    requires Permuted(a, b) && |a| == 0
    ensures |b| == 0
  {
    assert |b| > 0 ==> Copies(b, b[0]) > 0;
  }

  lemma {:induction false} SubsetCard<T>(a: set<T>, b: set<T>)
    requires a <= b
    ensures |a| <= |b|
    decreases a
  {
    if a != {} {
      var x :| x in a;
      SubsetCard(a - {x}, b - {x});
    }
  }

  ghost function ImageOf<S, T>(a: set<S>, f: S -> T): set<T> {
    set x | x in a :: f(x)
  }

  lemma {:induction false} ImageAtMost<S, T>(a: set<S>, f: S -> T)
    ensures |ImageOf(a, f)| <= |a|
    decreases a
  {
    if a != {} {
      var x :| x in a;
      ImageAtMost(a - {x}, f);
      assert ImageOf(a, f) == ImageOf(a - {x}, f) + {f(x)};
    }
  }

  /** An injective image of a finite set has the size of the set. */
  lemma {:induction false} ImageCard<S, T>(a: set<S>, f: S -> T)
    requires forall x, y :: x in a && y in a && f(x) == f(y) ==> x == y
    ensures |ImageOf(a, f)| == |a|
    decreases a
  {
    if a != {} {
      var x :| x in a;
      ImageCard(a - {x}, f);
      assert f(x) !in ImageOf(a - {x}, f);
      assert ImageOf(a, f) == ImageOf(a - {x}, f) + {f(x)};
    }
  }

  /** Two sets with injective labels and the same labels have the same size. */
  lemma {:induction false} SameLabelsSameCard<S, T, L>(a: set<S>, f: S -> L, b: set<T>, g: T -> L)
    requires forall x, y :: x in a && y in a && f(x) == f(y) ==> x == y
    requires forall x, y :: x in b && y in b && g(x) == g(y) ==> x == y
    requires forall x :: x in a ==> exists y :: y in b && g(y) == f(x)
    requires forall y :: y in b ==> exists x :: x in a && f(x) == g(y)
    ensures |a| == |b|
  {
    ImageCard(a, f);
    ImageCard(b, g);
    assert ImageOf(a, f) == ImageOf(b, g);
  }

  /** Every non-empty finite set of integers has a least element. */
  lemma {:induction false} LeastExists(a: set<int>, x: int)
    requires x in a
    ensures exists m :: m in a && forall y :: y in a ==> m <= y
    decreases a
  {
    if y :| y in a && y < x {
      LeastExists(a - {x}, y);
      var m :| m in a - {x} && forall z :: z in a - {x} ==> m <= z;
      assert m <= y;
      assert forall z :: z in a ==> z == x || z in a - {x};
      assert m in a && forall z :: z in a ==> m <= z;
    } else {
      assert x in a && forall z :: z in a ==> x <= z;
    }
  }
}
