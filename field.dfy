/** Coordinates of a board cell and their comparison (gamma/src/field.h). */
module Fields {

  /** A cell of the board: column `x`, row `y`. */
  datatype Field = Field(x: nat, y: nat)

  /** `field_equals`: two cells are equal when both coordinates match, which is
      exactly equality of the records. */
  predicate FieldEquals(f1: Field, f2: Field): (r: bool)
    ensures r <==> f1 == f2
  {
    f1.x == f2.x && f1.y == f2.y
  }

  lemma FieldEqualsReflexive(f: Field)
    ensures FieldEquals(f, f)
  {
  }

  lemma FieldEqualsSymmetric(f1: Field, f2: Field)
    ensures FieldEquals(f1, f2) == FieldEquals(f2, f1)
  {
  }
}
