/** Instructions that the optimiser does not represent, and what becomes of them. */
module OeuphExamples {
  import opened Basics
  import opened Terms
  import opened WeaveTable
  import opened OeuphBridge
  import opened OeuphRun

  /** Every opcode returns its first operand, every operand that is neither register nor integer is one,
      and registers are zero but for one. */
  ghost const FIRST_OPERAND: Machine<int> :=
    Machine(Algebra((v: int) => v, (op: string, xs: seq<int>) => if xs == [] then 0 else xs[0]), (o: OperandView) => 1)

  ghost function OnlyOne(x: string): Registers<int> {
    (y: string) => if y == x then 1 else 0
  }

  ghost function Over(o: OperandView): InstrView {
    InstrView("imov", Some("d"), [o])
  }

  lemma ValueOfFirst(o: OperandView, x: string)
    ensures InstrValue(FIRST_OPERAND, OnlyOne(x), Over(o)) == OperandValue(FIRST_OPERAND, OnlyOne(x), o)
  {
    assert seq(1, k requires 0 <= k < 1 => OperandValue(FIRST_OPERAND, OnlyOne(x), [o][k])) == [OperandValue(FIRST_OPERAND, OnlyOne(x), o)];
  }

  lemma RenamedOver(o: OperandView)
    ensures Renamed(Over(o)) == Over(RenamedOperand(o))
    ensures KeptAsIs(Over(o)) <==> KeptOperand(o)
  {
    assert RenamedOperands([o]) == [RenamedOperand(o)];
    assert KeptAsIs(Over(o)) ==> KeptOperand(Over(o).operands[0]);
  }

  /** A float constant has no name: where no rule fires, the instruction is still rewritten, to read the
      register with the empty name, and computes another value. */
  lemma FloatConstantLost()
    ensures var v := Over(ViewOther(OpConstFloat, None));
            && !KeptAsIs(v) && Renamed(v) == Over(ViewReg(""))
            && InstrValue(FIRST_OPERAND, OnlyOne("x"), v) != InstrValue(FIRST_OPERAND, OnlyOne("x"), Renamed(v))
  {
    var o := ViewOther(OpConstFloat, None);
    RenamedOver(o);
    ValueOfFirst(o, "x");
    ValueOfFirst(ViewReg(""), "x");
  }

  /** A register whose name does not fit its buffer is replaced by the register named by what does fit. */
  lemma LongNameCut(x: string)
    requires |x| > NAME_LIMIT
    ensures var v := Over(ViewReg(x));
            && !KeptAsIs(v) && Renamed(v) == Over(ViewReg(x[..NAME_LIMIT]))
            && InstrValue(FIRST_OPERAND, OnlyOne(x), v) != InstrValue(FIRST_OPERAND, OnlyOne(x), Renamed(v))
  {
    RenamedOver(ViewReg(x));
    ValueOfFirst(ViewReg(x), x);
    ValueOfFirst(ViewReg(x[..NAME_LIMIT]), x);
  }

  /** Names beyond the buffer size collide: two different registers become one leaf. */
  lemma LongNamesCollide(x: string, y: string)
    requires |x| > NAME_LIMIT && |y| > NAME_LIMIT && x[..NAME_LIMIT] == y[..NAME_LIMIT]
    ensures OperandLeaf(ViewReg(x)) == OperandLeaf(ViewReg(y))
    ensures ImportedTerm(Over(ViewReg(x))) == ImportedTerm(Over(ViewReg(y)))
    ensures x != y ==> ViewTerm(Over(ViewReg(x))) != ViewTerm(Over(ViewReg(y)))
  {
    RenamedOver(ViewReg(x));
    RenamedOver(ViewReg(y));
    RenamedAlike(Over(ViewReg(x)), Over(ViewReg(y)));
    assert OperandTerms([ViewReg(x)])[0] == TReg(x) && OperandTerms([ViewReg(y)])[0] == TReg(y);
  }

  /** A function name is taken for the register of that name: the e-graph sees one term where the two
      instructions compute different values. */
  lemma FunctionTakenForRegister(x: string)
    requires |x| <= NAME_LIMIT
    ensures var (v, w) := (Over(ViewOther(OpFunc, Some(x))), Over(ViewReg(x)));
            && ImportedTerm(v) == ImportedTerm(w) && Renamed(v) == w
            && InstrValue(FIRST_OPERAND, OnlyOne(x + "'"), v) != InstrValue(FIRST_OPERAND, OnlyOne(x + "'"), w)
  {
    var (o, r) := (ViewOther(OpFunc, Some(x)), ViewReg(x));
    RenamedOver(o);
    RenamedOver(r);
    RenamedAlike(Over(o), Over(r));
    ValueOfFirst(o, x + "'");
    ValueOfFirst(r, x + "'");
    assert |x| != |x + "'"|;
  }

  /** The e-nodes x, g(x) and f(g(x)). */
  ghost const NESTED: seq<ENode> :=
    [ENode("", false, 0, "x", []), ENode("g", false, 0, "", [0]), ENode("f", false, 0, "", [1])]

  /** Writing back f(g(x)) drops the operator below it: the instruction written is (f ""), another term. */
  lemma NestedOperatorDropped(dest: Option<string>)
    ensures WellFormedNodes(NESTED) && !LeafChildren(NESTED, NESTED[2])
    ensures WrittenView(NESTED, NESTED[2], dest) == InstrView("f", dest, [ViewReg("")])
    ensures ViewTerm(WrittenView(NESTED, NESTED[2], dest)) != TermOf(NESTED, 2)
  {
    assert WrittenOperands(NESTED, NESTED[2]) == [ViewReg("")];
    assert !TrueLeaf(NESTED[NESTED[2].children[0]]);
    WritebackFaithful(NESTED, 2, dest);
  }
}
