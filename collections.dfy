/// Facts about finite collections that the models of loops over sets and maps use.
module Collections {
  /** A set that is not empty has an element (what lets a loop pick its next item). */
  lemma NonEmptyHasElement<T>(s: set<T>)
    requires s != {}
    ensures exists x :: x in s
  {
    if forall x :: x !in s {
      assert false;
    }
  }

  /** The same for integers, which the generic lemma only provides boxed. */
  lemma NonEmptyIntsHaveElement(s: set<int>)
    requires s != {}
    ensures exists x :: x in s
  {
    if forall x :: x !in s {
      assert false;
    }
  }
}
