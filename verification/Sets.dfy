/** Choosing from finite sets. */
module Sets {

  lemma {:induction false} NoMemberMeansEmpty<T>(s: set<T>)
    requires forall x :: x !in s
    ensures s == {}
  {
    assert s == {};
  }

  lemma {:induction false} SomeMember<T>(s: set<T>)
    requires s != {}
    ensures exists x :: x in s
  {
    if !exists x :: x in s {
      NoMemberMeansEmpty(s);
    }
  }

  ghost function Pick<T>(s: set<T>): (x: T)
    requires s != {}
    ensures x in s
  {
    SomeMember(s);
    var x :| x in s;
    x
  }

  /** A set split in two has the sizes of its parts. */
  lemma {:induction false} SplitSize<T>(whole: set<T>, left: set<T>, right: set<T>)
    requires forall x :: x in whole <==> x in left || x in right
    requires forall x :: x !in left || x !in right
    ensures |whole| == |left| + |right|
  {
    assert whole == left + right;
  }
}
