/** The plan text: printing a sealed plan, tokenising, parsing, and when the two are inverse. */
module PlanText {
  import opened Basics
  import opened Numerals
  import opened SchedOrder
  import opened SchedExec

  predicate CleanScalar(s: string) {
    s != "" && '\n' !in s && '\r' !in s && ',' !in s
  }

  // ----- tokens, as `strtok_r` cuts them -----

  function WordLength(s: string, d: char): (n: nat)
    ensures n <= |s| && d !in s[..n] && (n < |s| ==> s[n] == d)
    ensures s != "" && s[0] != d ==> n > 0
  {
    if s == "" || s[0] == d then 0
    else
      assert s[..1 + WordLength(s[1..], d)] == [s[0]] + s[1..][..WordLength(s[1..], d)];
      1 + WordLength(s[1..], d)
  }

  /** The maximal runs of characters other than the delimiter. */
  function Tokens(s: string, d: char): seq<string>
    decreases |s|
  {
    if s == "" then []
    else if s[0] == d then Tokens(s[1..], d)
    else [s[..WordLength(s, d)]] + Tokens(s[WordLength(s, d)..], d)
  }

  /** A text holding the delimiter nowhere, and something. */
  predicate IsWord(s: string, d: char) {
    s != "" && d !in s
  }

  lemma {:induction false} TokensAreWords(s: string, d: char)
    ensures forall k :: 0 <= k < |Tokens(s, d)| ==> IsWord(Tokens(s, d)[k], d)
    decreases |s|
  {
    if s != "" && s[0] == d {
      TokensAreWords(s[1..], d);
    } else if s != "" {
      var n := WordLength(s, d);
      TokensAreWords(s[n..], d);
      var ts := Tokens(s[n..], d);
      assert Tokens(s, d) == [s[..n]] + ts;
    }
  }

  lemma {:induction false} WordLengthOf(w: string, d: char, rest: string)
    requires d !in w && (rest == "" || rest[0] == d)
    ensures WordLength(w + rest, d) == |w|
  {
    if w != "" {
      assert (w + rest)[1..] == w[1..] + rest;
      WordLengthOf(w[1..], d, rest);
    } else {
      assert w + rest == rest;
    }
  }

  lemma TokensWord(w: string, d: char, rest: string)
    requires IsWord(w, d) && (rest == "" || rest[0] == d)
    ensures Tokens(w + rest, d) == [w] + Tokens(rest, d)
  {
    WordLengthOf(w, d, rest);
    assert (w + rest)[..|w|] == w && (w + rest)[|w|..] == rest;
  }

  /** Lines, each ended by a newline. */
  function Unlines(lines: seq<string>): string {
    if lines == [] then "" else lines[0] + ("\n" + Unlines(lines[1..]))
  }

  lemma {:induction false} TokensUnlines(lines: seq<string>)
    requires forall k :: 0 <= k < |lines| ==> IsWord(lines[k], '\n')
    ensures Tokens(Unlines(lines), '\n') == lines
  {
    if lines != [] {
      var rest := "\n" + Unlines(lines[1..]);
      assert Unlines(lines) == lines[0] + rest;
      TokensWord(lines[0], '\n', rest);
      assert rest[1..] == Unlines(lines[1..]);
      TokensUnlines(lines[1..]);
    }
  }

  /** Words separated by single spaces. */
  function Unwords(words: seq<string>): string {
    if words == [] then ""
    else if |words| == 1 then words[0]
    else words[0] + (" " + Unwords(words[1..]))
  }

  lemma {:induction false} TokensUnwords(words: seq<string>)
    requires forall k :: 0 <= k < |words| ==> IsWord(words[k], ' ')
    ensures Tokens(Unwords(words), ' ') == words
  {
    if |words| == 1 {
      TokensWord(words[0], ' ', "");
      assert words[0] + "" == words[0];
    } else if words != [] {
      var rest := " " + Unwords(words[1..]);
      assert Unwords(words) == words[0] + rest;
      TokensWord(words[0], ' ', rest);
      assert rest[1..] == Unwords(words[1..]);
      TokensUnwords(words[1..]);
    }
  }

  lemma {:induction false} UnwordsChars(words: seq<string>, c: char)
    requires c != ' ' && forall k :: 0 <= k < |words| ==> c !in words[k]
    ensures c !in Unwords(words)
  {
    if |words| > 1 {
      UnwordsChars(words[1..], c);
    }
  }

  // ----- the text of a plan -----

  const HEADER: string := "CCW-SCHED-PLAN 1"

  function KindCode(k: PlanKind): nat {
    match k case Kernel => 1 case Rewrite => 2 case Barrier => 3
  }

  function NodeWords(n: PlanNode): seq<string> {
    ["node", Decimal(n.id), Decimal(KindCode(n.kind)), n.name] + n.members
  }

  function EdgeWords(e: Edge): seq<string> {
    ["edge", Decimal(e.0), Decimal(e.1)]
  }

  function NodeLines(nodes: seq<PlanNode>): seq<string> {
    seq(|nodes|, i requires 0 <= i < |nodes| => Unwords(NodeWords(nodes[i])))
  }

  function EdgeLines(edges: seq<Edge>): seq<string> {
    seq(|edges|, i requires 0 <= i < |edges| => Unwords(EdgeWords(edges[i])))
  }

  function PlanLines(name: string, nodes: seq<PlanNode>, edges: seq<Edge>): seq<string> {
    [HEADER, "name " + name] + NodeLines(nodes) + EdgeLines(edges)
  }

  // ----- what the parser makes of a text -----

  type Plan = (seq<PlanNode>, seq<Edge>)

  function KindOf(code: nat): Option<PlanKind> {
    if code == 1 then Some(Kernel) else if code == 2 then Some(Rewrite) else if code == 3 then Some(Barrier) else None
  }

  /** The node a line of words declares, if it is the next one expected. */
  function NodeFrom(words: seq<string>, expected: nat): Option<PlanNode> {
    if |words| < 4 then None
    else
      var (id, code, name, members) := (ScanUnsigned(words[1]), ScanUnsigned(words[2]), words[3], words[4..]);
      if id != Some(expected) || code.None? || KindOf(code.value).None? || !CleanScalar(name)
         || (exists k :: 0 <= k < |members| && !CleanScalar(members[k]))
         || (KindOf(code.value).value == Rewrite && members == []) || (KindOf(code.value).value == Barrier && members != [])
      then None
      else Some(PlanNode(expected, KindOf(code.value).value, name, members))
  }

  function EdgeFrom(words: seq<string>): Option<Edge> {
    if |words| != 3 then None
    else
      var (from, to) := (ScanUnsigned(words[1]), ScanUnsigned(words[2]));
      if from.None? || to.None? || from.value == 0 || to.value == 0 then None else Some((from.value, to.value))
  }

  function ParseRecord(words: seq<string>, p: Plan): Option<Plan> {
    if words == [] then Some(p)
    else if words[0] == "name" then if |words| == 2 then Some(p) else None
    else if words[0] == "node" then
      var n := NodeFrom(words, |p.0| + 1);
      if n.Some? then Some((p.0 + [n.value], p.1)) else None
    else if words[0] == "edge" then
      var e := EdgeFrom(words);
      if e.Some? then Some((p.0, p.1 + [e.value])) else None
    else None
  }

  function ParseRecords(lines: seq<string>, p: Plan): Option<Plan> {
    if lines == [] then Some(p)
    else
      var q := ParseRecord(Tokens(lines[0], ' '), p);
      if q.None? then None else ParseRecords(lines[1..], q.value)
  }

  predicate EdgesKnown(p: Plan) {
    forall k :: 0 <= k < |p.1| ==> p.1[k].0 <= |p.0| && p.1[k].1 <= |p.0|
  }

  /** The nodes and edges of a plan text; nothing if any record is malformed, an edge leaves the
      plan, or there is no node. */
  function ParsePlan(text: string): Option<Plan> {
    var lines := Tokens(text, '\n');
    if lines == [] || lines[0] != HEADER then None
    else
      var p := ParseRecords(lines[1..], ([], []));
      if p.None? || !EdgesKnown(p.value) || p.value.0 == [] then None else p
  }

  // ----- round trip -----

  /** A scalar that survives being written between spaces. */
  predicate IsToken(s: string) {
    CleanScalar(s) && ' ' !in s
  }

  predicate NodeTokens(n: PlanNode) {
    IsToken(n.name) && forall k :: 0 <= k < |n.members| ==> IsToken(n.members[k])
  }

  predicate AllTokens(nodes: seq<PlanNode>) {
    forall i :: 0 <= i < |nodes| ==> NodeTokens(nodes[i])
  }

  /** What the builder guarantees of a sealed plan. */
  ghost predicate WellFormedPlan(nodes: seq<PlanNode>, edges: seq<Edge>) {
    && NodesNumbered(nodes) && InRange(|nodes|, edges) && 0 < |nodes| < TWO_32
    && forall i :: 0 <= i < |nodes| ==>
         && (nodes[i].kind == Rewrite ==> nodes[i].members != [])
         && (nodes[i].kind == Barrier ==> nodes[i].members == [])
  }

  lemma {:induction false} DecimalChars(n: nat, c: char)
    requires !IsDigit(c)
    ensures c !in Decimal(n)
  {
  }

  lemma NodeWordsAreWords(n: PlanNode, c: char)
    requires NodeTokens(n) && (c == ' ' || c == '\n')
    ensures forall k :: 0 <= k < |NodeWords(n)| ==> IsWord(NodeWords(n)[k], c)
  {
    DecimalChars(n.id, c);
    DecimalChars(KindCode(n.kind), c);
    forall k | 0 <= k < |NodeWords(n)| ensures IsWord(NodeWords(n)[k], c) {
      if k >= 4 {
        assert NodeWords(n)[k] == n.members[k - 4];
      }
    }
  }

  lemma EdgeWordsAreWords(e: Edge, c: char)
    requires c == ' ' || c == '\n'
    ensures forall k :: 0 <= k < |EdgeWords(e)| ==> IsWord(EdgeWords(e)[k], c)
  {
    DecimalChars(e.0, c);
    DecimalChars(e.1, c);
  }

  lemma {:induction false} UnwordsNonEmpty(words: seq<string>)
    requires words != [] && words[0] != ""
    ensures Unwords(words) != ""
  {
  }

  lemma NodeLineWord(n: PlanNode)
    requires NodeTokens(n)
    ensures IsWord(Unwords(NodeWords(n)), '\n') && Tokens(Unwords(NodeWords(n)), ' ') == NodeWords(n)
  {
    NodeWordsAreWords(n, ' ');
    NodeWordsAreWords(n, '\n');
    UnwordsChars(NodeWords(n), '\n');
    UnwordsNonEmpty(NodeWords(n));
    TokensUnwords(NodeWords(n));
  }

  lemma EdgeLineWord(e: Edge)
    ensures IsWord(Unwords(EdgeWords(e)), '\n') && Tokens(Unwords(EdgeWords(e)), ' ') == EdgeWords(e)
  {
    EdgeWordsAreWords(e, ' ');
    EdgeWordsAreWords(e, '\n');
    UnwordsChars(EdgeWords(e), '\n');
    UnwordsNonEmpty(EdgeWords(e));
    TokensUnwords(EdgeWords(e));
  }

  lemma NodeReadBack(n: PlanNode)
    requires NodeTokens(n) && n.id < TWO_32
    requires (n.kind == Rewrite ==> n.members != []) && (n.kind == Barrier ==> n.members == [])
    ensures NodeFrom(NodeWords(n), n.id) == Some(n)
  {
    DecimalScans(n.id);
    DecimalScans(KindCode(n.kind));
    assert NodeWords(n)[4..] == n.members;
  }

  lemma EdgeReadBack(e: Edge)
    requires 0 < e.0 < TWO_32 && 0 < e.1 < TWO_32
    ensures EdgeFrom(EdgeWords(e)) == Some(e)
  {
    DecimalScans(e.0);
    DecimalScans(e.1);
  }

  /** A record of its own line, and the records after it. */
  lemma RecordsStep(lines: seq<string>, p: Plan, q: Plan)
    requires lines != [] && ParseRecord(Tokens(lines[0], ' '), p) == Some(q)
    ensures ParseRecords(lines, p) == ParseRecords(lines[1..], q)
  {
  }

  lemma EdgeRecord(e: Edge, p: Plan)
    requires 0 < e.0 < TWO_32 && 0 < e.1 < TWO_32
    ensures ParseRecord(Tokens(Unwords(EdgeWords(e)), ' '), p) == Some((p.0, p.1 + [e]))
  {
    EdgeLineWord(e);
    EdgeReadBack(e);
  }

  lemma NodeRecord(n: PlanNode, p: Plan)
    requires NodeTokens(n) && n.id < TWO_32 && n.id == |p.0| + 1
    requires (n.kind == Rewrite ==> n.members != []) && (n.kind == Barrier ==> n.members == [])
    ensures ParseRecord(Tokens(Unwords(NodeWords(n)), ' '), p) == Some((p.0 + [n], p.1))
  {
    NodeLineWord(n);
    NodeReadBack(n);
  }

  lemma {:induction false} RecordsOfNodes(nodes: seq<PlanNode>, edges: seq<Edge>, i: nat)
    requires WellFormedPlan(nodes, edges) && AllTokens(nodes) && i <= |nodes|
    ensures ParseRecords(NodeLines(nodes)[i..] + EdgeLines(edges), (nodes[..i], [])) == Some((nodes, edges))
    decreases |nodes| - i
  {
    var lines := NodeLines(nodes)[i..] + EdgeLines(edges);
    if i == |nodes| {
      assert lines == EdgeLines(edges)[0..];
      assert nodes[..i] == nodes && edges[..0] == [];
      RecordsOfEdges(nodes, edges, 0);
    } else {
      assert lines[0] == Unwords(NodeWords(nodes[i]));
      assert lines[1..] == NodeLines(nodes)[i + 1..] + EdgeLines(edges);
      assert NodeTokens(nodes[i]);
      assert nodes[..i] + [nodes[i]] == nodes[..i + 1];
      NodeRecord(nodes[i], (nodes[..i], []));
      RecordsStep(lines, (nodes[..i], []), (nodes[..i + 1], []));
      RecordsOfNodes(nodes, edges, i + 1);
    }
  }

  lemma {:induction false} RecordsOfEdges(nodes: seq<PlanNode>, edges: seq<Edge>, i: nat)
    requires WellFormedPlan(nodes, edges) && i <= |edges|
    ensures ParseRecords(EdgeLines(edges)[i..], (nodes, edges[..i])) == Some((nodes, edges))
    decreases |edges| - i
  {
    var lines := EdgeLines(edges)[i..];
    if i == |edges| {
      assert lines == [] && edges[..i] == edges;
    } else {
      assert lines[0] == Unwords(EdgeWords(edges[i])) && lines[1..] == EdgeLines(edges)[i + 1..];
      assert edges[..i] + [edges[i]] == edges[..i + 1];
      EdgeRecord(edges[i], (nodes, edges[..i]));
      RecordsStep(lines, (nodes, edges[..i]), (nodes, edges[..i + 1]));
      RecordsOfEdges(nodes, edges, i + 1);
    }
  }

  lemma NameLine(name: string)
    requires CleanScalar(name)
    ensures IsWord("name " + name, '\n') && Tokens("name " + name, ' ') == ["name"] + Tokens(name, ' ')
  {
    assert "name " + name == "name" + (" " + name);
    TokensWord("name", ' ', " " + name);
    assert (" " + name)[1..] == name;
  }

  lemma RecordsRoundTrip(name: string, nodes: seq<PlanNode>, edges: seq<Edge>)
    requires CleanScalar(name) && WellFormedPlan(nodes, edges) && AllTokens(nodes) && |Tokens(name, ' ')| == 1
    ensures ParseRecords(PlanLines(name, nodes, edges)[1..], ([], [])) == Some((nodes, edges))
  {
    var records := PlanLines(name, nodes, edges)[1..];
    PlanLinesAre(name, nodes, edges);
    NameRecord(name, records);
    assert nodes[..0] == [];
    RecordsOfNodes(nodes, edges, 0);
  }

  lemma PlanLinesAre(name: string, nodes: seq<PlanNode>, edges: seq<Edge>)
    ensures var lines := PlanLines(name, nodes, edges);
            lines[0] == HEADER && lines[1..][0] == "name " + name && lines[1..][1..] == NodeLines(nodes)[0..] + EdgeLines(edges)
  {
  }

  /** The parser reads back exactly the nodes and edges that were printed. */
  lemma TokensRoundTrip(name: string, nodes: seq<PlanNode>, edges: seq<Edge>)
    requires CleanScalar(name) && WellFormedPlan(nodes, edges)
    requires AllTokens(nodes) && |Tokens(name, ' ')| == 1
    ensures ParsePlan(Unlines(PlanLines(name, nodes, edges))) == Some((nodes, edges))
  {
    var lines := PlanLines(name, nodes, edges);
    PlanLinesAreWords(name, nodes, edges);
    TokensUnlines(lines);
    RecordsRoundTrip(name, nodes, edges);
    assert EdgesKnown((nodes, edges));
  }

  lemma NameRecord(name: string, records: seq<string>)
    requires records != [] && records[0] == "name " + name && CleanScalar(name) && |Tokens(name, ' ')| == 1
    ensures ParseRecords(records, ([], [])) == ParseRecords(records[1..], ([], []))
  {
    NameLine(name);
    assert ParseRecord(["name"] + Tokens(name, ' '), ([], [])) == Some(([], []));
    RecordsStep(records, ([], []), ([], []));
  }

  lemma PlanLinesAreWords(name: string, nodes: seq<PlanNode>, edges: seq<Edge>)
    requires CleanScalar(name) && AllTokens(nodes)
    ensures forall k :: 0 <= k < |PlanLines(name, nodes, edges)| ==> IsWord(PlanLines(name, nodes, edges)[k], '\n')
  {
    var lines := PlanLines(name, nodes, edges);
    NameLine(name);
    forall k | 0 <= k < |lines| ensures IsWord(lines[k], '\n') {
      if 2 <= k < 2 + |nodes| {
        assert NodeTokens(nodes[k - 2]);
        NodeLineWord(nodes[k - 2]);
      } else if k >= 2 {
        EdgeLineWord(edges[k - 2 - |nodes|]);
      }
    }
  }

  /** Names and members in a parsed plan never hold a space or a line break. */
  lemma {:induction false} ParsedAreTokens(lines: seq<string>, p: Plan)
    requires AllTokens(p.0) && ParseRecords(lines, p).Some?
    ensures AllTokens(ParseRecords(lines, p).value.0)
  {
    if lines != [] {
      var words := Tokens(lines[0], ' ');
      TokensAreWords(lines[0], ' ');
      var q := ParseRecord(words, p);
      assert AllTokens(q.value.0) by {
        if words != [] && words[0] == "node" {
          var n := NodeFrom(words, |p.0| + 1).value;
          assert n.name == words[3];
          forall k | 0 <= k < |n.members| ensures IsToken(n.members[k]) {
            assert n.members[k] == words[4 + k];
          }
        }
      }
      ParsedAreTokens(lines[1..], q.value);
    }
  }

  lemma UnlinesCons(line: string, lines: seq<string>)
    requires IsWord(line, '\n')
    ensures Tokens(Unlines([line] + lines), '\n') == [line] + Tokens(Unlines(lines), '\n')
  {
    var rest := "\n" + Unlines(lines);
    assert ([line] + lines)[1..] == lines;
    assert Unlines([line] + lines) == line + rest;
    TokensWord(line, '\n', rest);
    assert rest[1..] == Unlines(lines);
  }

  /** Whatever follows, the first two lines of a plan text are the header and the name line. */
  lemma LeadingLines(name: string, rest: seq<string>)
    requires CleanScalar(name)
    ensures var ts := Tokens(Unlines([HEADER, "name " + name] + rest), '\n');
            |ts| >= 2 && ts[0] == HEADER && ts[1] == "name " + name
  {
    NameLine(name);
    UnlinesCons("name " + name, rest);
    UnlinesCons(HEADER, ["name " + name] + rest);
    assert [HEADER, "name " + name] + rest == [HEADER] + (["name " + name] + rest);
  }

  lemma ParsedName(name: string, rest: seq<string>)
    requires CleanScalar(name) && ParsePlan(Unlines([HEADER, "name " + name] + rest)).Some?
    ensures |Tokens(name, ' ')| == 1
  {
    LeadingLines(name, rest);
    NameLine(name);
    assert ParseRecord(["name"] + Tokens(name, ' '), ([], [])).Some?;
  }

  lemma ParsedNodes(text: string)
    requires ParsePlan(text).Some?
    ensures AllTokens(ParsePlan(text).value.0)
  {
    ParsedAreTokens(Tokens(text, '\n')[1..], ([], []));
  }

  /** A well-formed plan comes back unchanged exactly when every node name and member is a clean
      scalar without spaces and the plan name is a single word. */
  lemma RoundTripExactly(name: string, nodes: seq<PlanNode>, edges: seq<Edge>)
    requires CleanScalar(name) && WellFormedPlan(nodes, edges)
    ensures ParsePlan(Unlines(PlanLines(name, nodes, edges))) == Some((nodes, edges))
       <==> AllTokens(nodes) && |Tokens(name, ' ')| == 1
  {
    if AllTokens(nodes) && |Tokens(name, ' ')| == 1 {
      TokensRoundTrip(name, nodes, edges);
    }
    if ParsePlan(Unlines(PlanLines(name, nodes, edges))) == Some((nodes, edges)) {
      ParsedNodes(Unlines(PlanLines(name, nodes, edges)));
      assert PlanLines(name, nodes, edges) == [HEADER, "name " + name] + (NodeLines(nodes) + EdgeLines(edges));
      ParsedName(name, NodeLines(nodes) + EdgeLines(edges));
    }
  }

  // ----- the parser -----

  /** `strtok_r`: each call returns the next token and forgets it. */
  class Tokenizer {
    var rest: string

    constructor (s: string)
      ensures rest == s
    {
      rest := s;
    }

    method Next(d: char) returns (token: Option<string>)
      modifies this
      ensures if Tokens(old(rest), d) == [] then token == None && Tokens(rest, d) == []
              else token == Some(Tokens(old(rest), d)[0]) && Tokens(rest, d) == Tokens(old(rest), d)[1..]
    {
      while rest != "" && rest[0] == d
        invariant Tokens(rest, d) == Tokens(old(rest), d)
        decreases |rest|
      {
        rest := rest[1..];
      }
      if rest == "" {
        return None;
      }
      var n := 0;
      while n < |rest| && rest[n] != d
        invariant 0 <= n <= |rest| && d !in rest[..n]
      {
        n := n + 1;
      }
      WordLengthIs(rest, d, n);
      token := Some(rest[..n]);
      rest := rest[n..];
    }
  }

  lemma WordLengthIs(s: string, d: char, n: nat)
    requires n <= |s| && d !in s[..n] && (n < |s| ==> s[n] == d)
    ensures WordLength(s, d) == n
  {
    assert s == s[..n] + s[n..];
    WordLengthOf(s[..n], d, s[n..]);
  }

  /** Cuts a line into words. */
  method Words(line: string) returns (words: seq<string>)
    ensures words == Tokens(line, ' ')
  {
    var items := new Tokenizer(line);
    words := [];
    var item := items.Next(' ');
    while item.Some?
      invariant fresh(items)
      invariant words + (if item.Some? then [item.value] else []) + Tokens(items.rest, ' ') == Tokens(line, ' ')
      invariant item.None? ==> Tokens(items.rest, ' ') == []
      decreases |Tokens(items.rest, ' ')|, item.Some?
    {
      words := words + [item.value];
      item := items.Next(' ');
    }
  }

  /** Rehydrates a plan text, record by record. */
  method ParsePlanText(text: string) returns (plan: Option<Plan>)
    ensures plan == ParsePlan(text)
  {
    var lines := new Tokenizer(text);
    var line := lines.Next('\n');
    if line.None? || line.value != HEADER {
      return None;
    }
    ghost var all := Tokens(text, '\n')[1..];
    var p: Plan := ([], []);
    line := lines.Next('\n');
    while line.Some?
      invariant fresh(lines)
      invariant ParseRecords((if line.Some? then [line.value] else []) + Tokens(lines.rest, '\n'), p) == ParseRecords(all, ([], []))
      invariant line.None? ==> Tokens(lines.rest, '\n') == []
      decreases |Tokens(lines.rest, '\n')|, line.Some?
    {
      ghost var pending := [line.value] + Tokens(lines.rest, '\n');
      assert pending[1..] == Tokens(lines.rest, '\n');
      var words := Words(line.value);
      var q := ParseRecord(words, p);
      if q.None? {
        return None;
      }
      p := q.value;
      line := lines.Next('\n');
      assert pending[1..] == (if line.Some? then [line.value] else []) + Tokens(lines.rest, '\n');
    }
    if p.0 == [] || exists k :: 0 <= k < |p.1| && !(p.1[k].0 <= |p.0| && p.1[k].1 <= |p.0|) {
      return None;
    }
    return Some(p);
  }

  /** What the parser returns can be executed. */
  lemma {:induction false} ParsedRecordsNumbered(lines: seq<string>, p: Plan)
    requires NodesNumbered(p.0) && ParseRecords(lines, p).Some?
    requires forall k :: 0 <= k < |p.1| ==> p.1[k].0 > 0 && p.1[k].1 > 0
    ensures NodesNumbered(ParseRecords(lines, p).value.0)
    ensures forall k :: 0 <= k < |ParseRecords(lines, p).value.1| ==>
              ParseRecords(lines, p).value.1[k].0 > 0 && ParseRecords(lines, p).value.1[k].1 > 0
  {
    if lines != [] {
      ParsedRecordsNumbered(lines[1..], ParseRecord(Tokens(lines[0], ' '), p).value);
    }
  }

  lemma ParsedIsExecutable(text: string)
    requires ParsePlan(text).Some?
    ensures NodesNumbered(ParsePlan(text).value.0) && InRange(|ParsePlan(text).value.0|, ParsePlan(text).value.1)
  {
    ParsedRecordsNumbered(Tokens(text, '\n')[1..], ([], []));
  }

  /** `ccw_plan_apply_rewrites` and `ccw_plan_apply_kernels`: parse the text, then execute. */
  method ApplyPlan(text: string, mode: Mode, works: Works) returns (outcome: Option<Outcome>, log: seq<Action>, ghost g: Tiling)
    ensures outcome.None? <==> ParsePlan(text).None?
    ensures outcome.None? ==> log == []
    ensures outcome.Some? ==> Executed(ParsePlan(text).value.0, ParsePlan(text).value.1, mode, works, outcome.value, log, g)
  {
    var plan := ParsePlanText(text);
    if plan.None? {
      return None, [], Tiling([], []);
    }
    ParsedIsExecutable(text);
    var result;
    result, log, g := Execute(plan.value.0, plan.value.1, mode, works);
    return Some(result), log, g;
  }
}
