/** Plans the builder accepts and prints, but the executor does not read back. */
module PlanExamples {
  import opened Basics
  import opened Numerals
  import opened SchedOrder
  import opened SchedExec
  import opened PlanText

  /** A kernel whose name holds a space, and a kernel of one word with one capability. */
  function Spaced(a: string, b: string): PlanNode {
    PlanNode(1, Kernel, a + (" " + b), [])
  }

  function Split(a: string, b: string): PlanNode {
    PlanNode(1, Kernel, a, [b])
  }

  lemma SpacedWords(a: string, b: string)
    ensures Unwords(NodeWords(Spaced(a, b))) == Unwords(NodeWords(Split(a, b)))
  {
    var (one, code) := (Decimal(1), Decimal(KindCode(Kernel)));
    LastTwoWords("node", one, code, a, b);
    assert NodeWords(Spaced(a, b)) == ["node", one, code, a + (" " + b)];
    assert NodeWords(Split(a, b)) == ["node", one, code, a, b];
  }

  /** Two words print like one word that holds a space. */
  lemma LastTwoWords(w: string, x: string, y: string, a: string, b: string)
    ensures Unwords([w, x, y, a + (" " + b)]) == Unwords([w, x, y, a, b])
  {
    var (one, two) := ([a + (" " + b)], [a, b]);
    assert two[1..] == [b] && Unwords(one) == Unwords(two);
    WordBefore(y, one, two);
    WordBefore(x, [y] + one, [y] + two);
    WordBefore(w, [x] + ([y] + one), [x] + ([y] + two));
    assert [w] + ([x] + ([y] + one)) == [w, x, y, a + (" " + b)];
    assert [w] + ([x] + ([y] + two)) == [w, x, y, a, b];
  }

  lemma WordBefore(w: string, xs: seq<string>, ys: seq<string>)
    requires xs != [] && ys != [] && Unwords(xs) == Unwords(ys)
    ensures Unwords([w] + xs) == Unwords([w] + ys)
  {
    assert ([w] + xs)[1..] == xs && ([w] + ys)[1..] == ys;
  }

  /** The builder takes any name without line breaks and commas, so it takes "a b"; the plan is read back
      as one that loads kernel "a" and applies its capability "b". */
  lemma SpacedNameReadAsMember(name: string, a: string, b: string)
    requires IsToken(name) && IsToken(a) && IsToken(b)
    ensures CleanScalar(Spaced(a, b).name) && WellFormedPlan([Spaced(a, b)], []) && Spaced(a, b) != Split(a, b)
    ensures ParsePlan(Unlines(PlanLines(name, [Spaced(a, b)], []))) == Some(([Split(a, b)], []))
  {
    SpacedWords(a, b);
    assert NodeLines([Spaced(a, b)]) == NodeLines([Split(a, b)]);
    OneToken(name);
    TokensRoundTrip(name, [Split(a, b)], []);
  }

  lemma OneToken(name: string)
    requires IsToken(name)
    ensures Tokens(name, ' ') == [name]
  {
    TokensWord(name, ' ', "");
    assert name + "" == name;
  }

  lemma SpacedNameExample()
    ensures CleanScalar("a b")
    ensures ParsePlan(Unlines(PlanLines("p", [PlanNode(1, Kernel, "a b", [])], []))) == Some(([PlanNode(1, Kernel, "a", ["b"])], []))
  {
    SpacedNameReadAsMember("p", "a", "b");
    assert "a" + (" " + "b") == "a b";
  }

  // ----- a plan on paper -----

  /** A kernel with one capability, a rewrite node with two rulesets, and a barrier behind both. */
  const SMALL_NODES: seq<PlanNode> :=
    [PlanNode(1, Kernel, "k", ["c"]), PlanNode(2, Rewrite, "ar*", ["ar.a", "ar.b"]), PlanNode(3, Barrier, "b", [])]
  const SMALL_EDGES: seq<Edge> := [(1, 3), (2, 3)]

  lemma SmallDecimals()
    ensures Decimal(1) == "1" && Decimal(2) == "2" && Decimal(3) == "3"
  {
  }

  lemma OneWord(w: string)
    ensures Unwords([w]) == w
  {
  }

  lemma WordJoined(w: string, rest: seq<string>, text: string, joined: string)
    requires rest != [] && Unwords(rest) == text && w + (" " + text) == joined
    ensures Unwords([w] + rest) == joined
  {
    assert ([w] + rest)[1..] == rest;
  }

  lemma KernelLine()
    ensures Unwords(["node", "1", "1", "k", "c"]) == "node 1 1 k c"
  {
    OneWord("c");
    WordJoined("k", ["c"], "c", "k c");
    assert ["k"] + ["c"] == ["k", "c"];
    WordJoined("1", ["k", "c"], "k c", "1 k c");
    assert ["1"] + ["k", "c"] == ["1", "k", "c"];
    WordJoined("1", ["1", "k", "c"], "1 k c", "1 1 k c");
    assert ["1"] + ["1", "k", "c"] == ["1", "1", "k", "c"];
    WordJoined("node", ["1", "1", "k", "c"], "1 1 k c", "node 1 1 k c");
    assert ["node"] + ["1", "1", "k", "c"] == ["node", "1", "1", "k", "c"];
  }

  lemma RewriteLine()
    ensures Unwords(["node", "2", "2", "ar*", "ar.a", "ar.b"]) == "node 2 2 ar* ar.a ar.b"
  {
    OneWord("ar.b");
    WordJoined("ar.a", ["ar.b"], "ar.b", "ar.a ar.b");
    assert ["ar.a"] + ["ar.b"] == ["ar.a", "ar.b"];
    WordJoined("ar*", ["ar.a", "ar.b"], "ar.a ar.b", "ar* ar.a ar.b");
    assert ["ar*"] + ["ar.a", "ar.b"] == ["ar*", "ar.a", "ar.b"];
    WordJoined("2", ["ar*", "ar.a", "ar.b"], "ar* ar.a ar.b", "2 ar* ar.a ar.b");
    assert ["2"] + ["ar*", "ar.a", "ar.b"] == ["2", "ar*", "ar.a", "ar.b"];
    WordJoined("2", ["2", "ar*", "ar.a", "ar.b"], "2 ar* ar.a ar.b", "2 2 ar* ar.a ar.b");
    assert ["2"] + ["2", "ar*", "ar.a", "ar.b"] == ["2", "2", "ar*", "ar.a", "ar.b"];
    WordJoined("node", ["2", "2", "ar*", "ar.a", "ar.b"], "2 2 ar* ar.a ar.b", "node 2 2 ar* ar.a ar.b");
    assert ["node"] + ["2", "2", "ar*", "ar.a", "ar.b"] == ["node", "2", "2", "ar*", "ar.a", "ar.b"];
  }

  lemma BarrierLine()
    ensures Unwords(["node", "3", "3", "b"]) == "node 3 3 b"
  {
    OneWord("b");
    WordJoined("3", ["b"], "b", "3 b");
    assert ["3"] + ["b"] == ["3", "b"];
    WordJoined("3", ["3", "b"], "3 b", "3 3 b");
    assert ["3"] + ["3", "b"] == ["3", "3", "b"];
    WordJoined("node", ["3", "3", "b"], "3 3 b", "node 3 3 b");
    assert ["node"] + ["3", "3", "b"] == ["node", "3", "3", "b"];
  }

  lemma FirstEdgeLine()
    ensures Unwords(["edge", "1", "3"]) == "edge 1 3"
  {
    OneWord("3");
    WordJoined("1", ["3"], "3", "1 3");
    assert ["1"] + ["3"] == ["1", "3"];
    WordJoined("edge", ["1", "3"], "1 3", "edge 1 3");
    assert ["edge"] + ["1", "3"] == ["edge", "1", "3"];
  }

  lemma SecondEdgeLine()
    ensures Unwords(["edge", "2", "3"]) == "edge 2 3"
  {
    OneWord("3");
    WordJoined("2", ["3"], "3", "2 3");
    assert ["2"] + ["3"] == ["2", "3"];
    WordJoined("edge", ["2", "3"], "2 3", "edge 2 3");
    assert ["edge"] + ["2", "3"] == ["edge", "2", "3"];
  }

  lemma SmallNodeLines()
    ensures NodeLines(SMALL_NODES) == ["node 1 1 k c", "node 2 2 ar* ar.a ar.b", "node 3 3 b"]
  {
    SmallDecimals();
    KernelLine();
    RewriteLine();
    BarrierLine();
    assert NodeWords(SMALL_NODES[0]) == ["node", "1", "1", "k", "c"];
    assert NodeWords(SMALL_NODES[1]) == ["node", "2", "2", "ar*", "ar.a", "ar.b"];
    assert NodeWords(SMALL_NODES[2]) == ["node", "3", "3", "b"];
  }

  lemma SmallEdgeLines()
    ensures EdgeLines(SMALL_EDGES) == ["edge 1 3", "edge 2 3"]
  {
    SmallDecimals();
    FirstEdgeLine();
    SecondEdgeLine();
  }

  /** The text of that plan. */
  lemma SmallPlanOnPaper()
    ensures PlanLines("p", SMALL_NODES, SMALL_EDGES)
         == ["CCW-SCHED-PLAN 1", "name p", "node 1 1 k c", "node 2 2 ar* ar.a ar.b", "node 3 3 b", "edge 1 3", "edge 2 3"]
  {
    SmallNodeLines();
    SmallEdgeLines();
    assert "name " + "p" == "name p";
  }

  lemma SmallPlanTokens()
    ensures WellFormedPlan(SMALL_NODES, SMALL_EDGES) && AllTokens(SMALL_NODES)
  {
    assert IsToken("k") && IsToken("c") && IsToken("ar*") && IsToken("ar.a") && IsToken("ar.b") && IsToken("b");
  }

  /** That it is read back. */
  lemma SmallPlanReadBack()
    ensures ParsePlan(Unlines(PlanLines("p", SMALL_NODES, SMALL_EDGES))) == Some((SMALL_NODES, SMALL_EDGES))
  {
    SmallPlanTokens();
    PlanNameIsToken();
    TokensRoundTrip("p", SMALL_NODES, SMALL_EDGES);
  }

  lemma PlanNameIsToken()
    ensures IsToken("p") && |Tokens("p", ' ')| == 1
  {
    OneToken("p");
  }

  /** A plan named by more than one word is refused by the executor. */
  lemma SpacedPlanNameRefused(name: string, nodes: seq<PlanNode>, edges: seq<Edge>)
    requires CleanScalar(name) && |Tokens(name, ' ')| != 1
    ensures ParsePlan(Unlines(PlanLines(name, nodes, edges))).None?
  {
    assert PlanLines(name, nodes, edges) == [HEADER, "name " + name] + (NodeLines(nodes) + EdgeLines(edges));
    if ParsePlan(Unlines(PlanLines(name, nodes, edges))).Some? {
      ParsedName(name, NodeLines(nodes) + EdgeLines(edges));
    }
  }
}
