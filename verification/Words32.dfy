/** Sums of 32-bit words, modulo 2^32. */
module Words32 {

  function Add(x: bv32, y: bv32): bv32 {
    x + y
  }

  lemma SumAssociates(x: bv32, y: bv32, z: bv32)
    ensures x + y + z == x + (y + z)
  {
  }

  lemma AddIsSum(x: bv32, y: bv32)
    ensures Add(x, y) == x + y
  {
  }

  lemma AddAssociates(x: bv32, y: bv32, z: bv32)
    ensures Add(Add(x, y), z) == Add(x, Add(y, z))
  {
    calc {
      Add(Add(x, y), z);
      { AddIsSum(x, y); }
      Add(x + y, z);
      { AddIsSum(x + y, z); }
      x + y + z;
      { SumAssociates(x, y, z); }
      x + (y + z);
      { AddIsSum(x, y + z); }
      Add(x, y + z);
      { AddIsSum(y, z); }
      Add(x, Add(y, z));
    }
  }

  lemma AddCommutes(x: bv32, y: bv32)
    ensures Add(x, y) == Add(y, x)
  {
  }

  ghost predicate Summation<W(!new)>(add: (W, W) -> W) {
    && (forall x, y :: add(x, y) == add(y, x))
    && (forall x, y, z :: add(add(x, y), z) == add(x, add(y, z)))
  }

  lemma AddIsSummation()
    ensures Summation(Add)
  {
    forall x, y ensures Add(x, y) == Add(y, x) {
      AddCommutes(x, y);
    }
    forall x, y, z ensures Add(Add(x, y), z) == Add(x, Add(y, z)) {
      AddAssociates(x, y, z);
    }
  }
}
