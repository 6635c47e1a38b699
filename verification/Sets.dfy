/** Finite-set facts shared by the other modules. */
module Sets {

  lemma Member<T>(s: set<T>) returns (t: T)
    requires s != {}
    ensures t in s
  {
    t :| t in s;
  }

  /** Some element of the set, as an iteration in no particular order meets it. */
  method PickAny<T>(s: set<T>) returns (t: T)
    requires s != {}
    ensures t in s
  {
    t :| t in s;
  }

  lemma SubsetSize<T>(a: set<T>, b: set<T>)
    requires a <= b
    ensures |a| <= |b|
  {
    assert b == a + (b - a);
  }

  lemma UnionSize<T>(a: set<T>, b: set<T>)
    ensures |a + b| == |a| + |b| - |a * b|
  {
    assert a + b == a + (b - a);
    assert b == (b - a) + a * b;
  }

  ghost function ImageOf<T, U>(s: set<T>, f: T -> U): set<U> {
    set a | a in s :: f(a)
  }

  lemma {:induction false} ImageSize<T, U>(s: set<T>, f: T -> U)
    ensures |ImageOf(s, f)| <= |s|
    ensures (forall a, b :: a in s && b in s && f(a) == f(b) ==> a == b) ==> |ImageOf(s, f)| == |s|
  {
    if s == {} {
      assert ImageOf(s, f) == {};
    } else {
      var a :| a in s;
      ImageSize(s - {a}, f);
      assert ImageOf(s, f) == ImageOf(s - {a}, f) + {f(a)};
    }
  }

  /** If f is injective on s and hits only values that g takes on t, then s is no
      larger than t. */
  lemma InjectionSize<T, U>(s: set<T>, f: T -> U, t: set<T>, g: T -> U)
    requires forall a, b :: a in s && b in s && f(a) == f(b) ==> a == b
    requires forall a :: a in s ==> exists b :: b in t && g(b) == f(a)
    ensures |s| <= |t|
  {
    ImageSize(s, f);
    ImageSize(t, g);
    SubsetSize(ImageOf(s, f), ImageOf(t, g));
  }
}
