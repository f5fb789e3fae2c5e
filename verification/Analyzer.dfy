// The analyzer: the weighted anti-pattern table and the score it gives a
// function body, and the post-processing of the parser's captured function
// nodes into de-duplicated candidates (name resolution, first body wins).
// Parsing itself is not modelled: the parser's captures are an input.
module Analyzer {
  import opened Wrappers
  import opened JsText
  import opened Regex

  // ---------------------------------------------------------------------------
  // Scoring
  // ---------------------------------------------------------------------------

  /** The rows of the anti-pattern table, one constructor per entry. A row's regular expression,
      weight and reason are given by PatternOf, WeightOf and ReasonOf. */
  datatype Rule =
    | VarKeyword | ThenChain | CatchChain | StringConcat | ErrorFirstCallback | IndexForLoop
    | ArgumentsObject | SelfThisAlias | ObjectAssignCopy | ApplyNull | HasOwnProperty | NestedIfElse

  datatype ScoreResult = ScoreResult(score: nat, reasons: seq<string>)

  /** The fixed table, in source order. */
  const AntiPatterns: seq<Rule> := [
    VarKeyword, ThenChain, CatchChain, StringConcat, ErrorFirstCallback, IndexForLoop,
    ArgumentsObject, SelfThisAlias, ObjectAssignCopy, ApplyNull, HasOwnProperty, NestedIfElse
  ]

  function PatternOf(r: Rule): Pattern
  {
    match r
    // \bvar\s+
    case VarKeyword => [WordBoundary, Lit("var"), One(Space), Many(Space)]
    // \.then\s*\(
    case ThenChain => [Lit(".then"), Many(Space), Lit("(")]
    // \.catch\s*\(
    case CatchChain => [Lit(".catch"), Many(Space), Lit("(")]
    // ['"]\s*\+\s*\w
    case StringConcat => [AnyOf(["'", "\""]), Many(Space), Lit("+"), Many(Space), One(Word)]
    // function\s*\(\s*err\s*,
    case ErrorFirstCallback => [Lit("function"), Many(Space), Lit("("), Many(Space), Lit("err"), Many(Space), Lit(",")]
    // for\s*\(\s*(var|let)\s+\w+\s*=\s*0
    case IndexForLoop => [Lit("for"), Many(Space), Lit("("), Many(Space), AnyOf(["var", "let"]), One(Space), Many(Space),
                          One(Word), Many(Word), Many(Space), Lit("="), Many(Space), Lit("0")]
    // \barguments\b
    case ArgumentsObject => [WordBoundary, Lit("arguments"), WordBoundary]
    // \b(self|that)\s*=\s*this\b
    case SelfThisAlias => [WordBoundary, AnyOf(["self", "that"]), Many(Space), Lit("="), Many(Space), Lit("this"), WordBoundary]
    // Object\.assign\s*\(\s*\{\s*\}
    case ObjectAssignCopy => [Lit("Object.assign"), Many(Space), Lit("("), Many(Space), Lit("{"), Many(Space), Lit("}")]
    // \.(apply|call)\s*\(\s*(null|undefined)
    case ApplyNull => [Lit("."), AnyOf(["apply", "call"]), Many(Space), Lit("("), Many(Space), AnyOf(["null", "undefined"])]
    // \.hasOwnProperty\s*\(
    case HasOwnProperty => [Lit(".hasOwnProperty"), Many(Space), Lit("(")]
    // if[\s\S]{400,}else
    case NestedIfElse => [Lit("if"), AtLeast(400), Lit("else")]
  }

  /** Every row of the table weighs at least 1. */
  function WeightOf(r: Rule): (w: nat)
    ensures w >= 1
  {
    match r
    case VarKeyword => 3
    case ThenChain => 3
    case CatchChain => 2
    case StringConcat => 2
    case ErrorFirstCallback => 3
    case IndexForLoop => 2
    case ArgumentsObject => 3
    case SelfThisAlias => 3
    case ObjectAssignCopy => 1
    case ApplyNull => 1
    case HasOwnProperty => 1
    case NestedIfElse => 2
  }

  function ReasonOf(r: Rule): string
  {
    match r
    case VarKeyword => "uses 'var' (should be let/const)"
    case ThenChain => "uses .then() chain (could be async/await)"
    case CatchChain => "uses .catch() chain (could be async/await)"
    case StringConcat => "uses string concatenation (could use template literals)"
    case ErrorFirstCallback => "uses error-first callback pattern (could be async/await)"
    case IndexForLoop => "uses index for-loop (could be .map/.filter/.forEach)"
    case ArgumentsObject => "uses 'arguments' object (should use rest params)"
    case SelfThisAlias => "uses self/that=this hack (use arrow functions)"
    case ObjectAssignCopy => "uses Object.assign({}, ...) (could use spread)"
    case ApplyNull => "uses .apply(null) (could use spread)"
    case HasOwnProperty => "uses .hasOwnProperty (prefer Object.hasOwn)"
    case NestedIfElse => "deeply nested if/else (could use early return)"
  }

  /** Index of the `.hasOwnProperty` rule in the table. */
  const HasOwnPropertyRule := 10

  function TotalWeight(rules: seq<Rule>): nat
  {
    if rules == [] then 0 else TotalWeight(rules[..|rules| - 1]) + WeightOf(rules[|rules| - 1])
  }

  /** Sum of the weights of the rules of `rules` that `hits` selects. */
  function MatchedWeight(rules: seq<Rule>, hits: Rule -> bool): nat
  {
    if rules == [] then 0
    else
      var last := rules[|rules| - 1];
      MatchedWeight(rules[..|rules| - 1], hits) + (if hits(last) then WeightOf(last) else 0)
  }

  /** Reasons of the selected rules, in table order. */
  function MatchedReasons(rules: seq<Rule>, hits: Rule -> bool): seq<string>
  {
    if rules == [] then []
    else
      var last := rules[|rules| - 1];
      MatchedReasons(rules[..|rules| - 1], hits) + (if hits(last) then [ReasonOf(last)] else [])
  }

  /** Number of selected rules. */
  function MatchedCount(rules: seq<Rule>, hits: Rule -> bool): nat
  {
    if rules == [] then 0
    else MatchedCount(rules[..|rules| - 1], hits) + (if hits(rules[|rules| - 1]) then 1 else 0)
  }

  /** `rule.pattern.test(body)`, for every rule. */
  function TestsOn(body: string): Rule -> bool
  {
    r => Test(PatternOf(r), body)
  }

  /** The score the table gives a body. */
  function Score(body: string): nat
  {
    MatchedWeight(AntiPatterns, TestsOn(body))
  }

  /** `scoreOptimizationNeed`: one pass over the table, accumulating weight and reason of every match. */
  method ScoreOptimizationNeed(body: string) returns (r: ScoreResult)
    ensures r.score == MatchedWeight(AntiPatterns, TestsOn(body))
    ensures r.reasons == MatchedReasons(AntiPatterns, TestsOn(body))
  {
    var reasons: seq<string> := [];
    var score: nat := 0;
    for k := 0 to |AntiPatterns|
      invariant score == MatchedWeight(AntiPatterns[..k], TestsOn(body))
      invariant reasons == MatchedReasons(AntiPatterns[..k], TestsOn(body))
    {
      var rule := AntiPatterns[k];
      MatchedSnoc(AntiPatterns, TestsOn(body), k);
      if Test(PatternOf(rule), body) {
        score := score + WeightOf(rule);
        reasons := reasons + [ReasonOf(rule)];
      }
    }
    assert AntiPatterns[..|AntiPatterns|] == AntiPatterns;
    r := ScoreResult(score, reasons);
  }

  /** Extending the prefix of the table by one rule adds that rule's share. */
  lemma MatchedSnoc(rules: seq<Rule>, hits: Rule -> bool, k: nat)
    requires k < |rules|
    ensures MatchedWeight(rules[..k + 1], hits) == MatchedWeight(rules[..k], hits) + (if hits(rules[k]) then WeightOf(rules[k]) else 0)
    ensures MatchedReasons(rules[..k + 1], hits) == MatchedReasons(rules[..k], hits) + (if hits(rules[k]) then [ReasonOf(rules[k])] else [])
  {
    assert rules[..k + 1][..k] == rules[..k];
  }

  lemma {:induction false} MatchedBounds(rules: seq<Rule>, hits: Rule -> bool)
    ensures MatchedWeight(rules, hits) <= TotalWeight(rules)
    ensures |MatchedReasons(rules, hits)| == MatchedCount(rules, hits) <= |rules|
  {
    if rules != [] {
      MatchedBounds(rules[..|rules| - 1], hits);
    }
  }

  /** As every rule weighs something, nothing is scored exactly when no rule is selected. */
  lemma {:induction false} MatchedWeightZeroIff(rules: seq<Rule>, hits: Rule -> bool)
    ensures MatchedWeight(rules, hits) == 0 <==> forall k | 0 <= k < |rules| :: !hits(rules[k])
  {
    if rules != [] {
      var init := rules[..|rules| - 1];
      MatchedWeightZeroIff(init, hits);
      assert forall k | 0 <= k < |init| :: init[k] == rules[k];
    }
  }

  /** A selected rule contributes its weight and its reason. */
  lemma {:induction false} MatchedRuleContributes(rules: seq<Rule>, hits: Rule -> bool, k: nat)
    requires k < |rules| && hits(rules[k])
    ensures MatchedWeight(rules, hits) >= WeightOf(rules[k])
    ensures ReasonOf(rules[k]) in MatchedReasons(rules, hits)
  {
    if k < |rules| - 1 {
      var init := rules[..|rules| - 1];
      assert init[k] == rules[k];
      MatchedRuleContributes(init, hits, k);
    }
  }

  lemma TableFacts()
    ensures |AntiPatterns| == 12
    ensures TotalWeight(AntiPatterns) == 26
  {
    var t := AntiPatterns;
    assert TotalWeight(t[..1]) == 3 by { assert t[..1][..0] == []; }
    assert TotalWeight(t[..2]) == 6 by { assert t[..2][..1] == t[..1]; }
    assert TotalWeight(t[..3]) == 8 by { assert t[..3][..2] == t[..2]; }
    assert TotalWeight(t[..4]) == 10 by { assert t[..4][..3] == t[..3]; }
    assert TotalWeight(t[..5]) == 13 by { assert t[..5][..4] == t[..4]; }
    assert TotalWeight(t[..6]) == 15 by { assert t[..6][..5] == t[..5]; }
    assert TotalWeight(t[..7]) == 18 by { assert t[..7][..6] == t[..6]; }
    assert TotalWeight(t[..8]) == 21 by { assert t[..8][..7] == t[..7]; }
    assert TotalWeight(t[..9]) == 22 by { assert t[..9][..8] == t[..8]; }
    assert TotalWeight(t[..10]) == 23 by { assert t[..10][..9] == t[..9]; }
    assert TotalWeight(t[..11]) == 24 by { assert t[..11][..10] == t[..10]; }
    assert TotalWeight(t[..12]) == 26 by { assert t[..12][..11] == t[..11]; }
    assert t[..12] == t;
  }

  /** The score is at most 26 (all twelve weights), lists at most twelve reasons, one per
      matching rule, and is 0 exactly when no rule of the table matches. */
  lemma ScoreProperties(body: string)
    ensures Score(body) <= 26
    ensures |MatchedReasons(AntiPatterns, TestsOn(body))| == MatchedCount(AntiPatterns, TestsOn(body)) <= 12
    ensures Score(body) == 0 <==> forall k | 0 <= k < |AntiPatterns| :: !Test(PatternOf(AntiPatterns[k]), body)
  {
    TableFacts();
    MatchedBounds(AntiPatterns, TestsOn(body));
    MatchedWeightZeroIff(AntiPatterns, TestsOn(body));
  }

  /** A body with a `.hasOwnProperty(` call scores at least 1 and names that reason. */
  lemma HasOwnPropertyScores(body: string, i: nat)
    requires HasPrefixAt(body, i, ".hasOwnProperty(")
    ensures Score(body) >= 1
    ensures "uses .hasOwnProperty (prefer Object.hasOwn)" in MatchedReasons(AntiPatterns, TestsOn(body))
  {
    var rule := AntiPatterns[HasOwnPropertyRule];
    assert rule == HasOwnProperty;
    assert ".hasOwnProperty(" == ".hasOwnProperty" + "(";
    LitThenLit(body, i, ".hasOwnProperty", "(");
    assert TestsOn(body)(rule);
    MatchedRuleContributes(AntiPatterns, TestsOn(body), HasOwnPropertyRule);
    assert ReasonOf(rule) == "uses .hasOwnProperty (prefer Object.hasOwn)";
  }

  // ---------------------------------------------------------------------------
  // Captured nodes, name resolution, de-duplication
  // ---------------------------------------------------------------------------

  /** The four node kinds the parser query captures. */
  datatype NodeType = FunctionDeclaration | FunctionExpression | ArrowFunction | MethodDefinition

  /** The parent of a captured node: its grammar type and the text of its `name` field. */
  datatype ParentNode = ParentNode(nodeType: string, nameText: Option<string>)

  /** One captured node, as the parser reports it. */
  datatype CapturedNode = CapturedNode(
    nodeType: NodeType,
    nameText: Option<string>,      // text of the node's own `name` field, if any
    parent: Option<ParentNode>,
    text: string,
    startIndex: nat,
    endIndex: nat)

  datatype Candidate = Candidate(functionName: string, functionBody: string, startIndex: nat, endIndex: nat)

  /** `field?.text || fallback`: a missing or empty field gives the fallback. */
  function FieldOr(field: Option<string>, fallback: string): (r: string)
    ensures field.Some? && field.value != "" ==> r == field.value
    ensures field.None? || field.value == "" ==> r == fallback
  {
    if field.Some? && field.value != "" then field.value else fallback
  }

  /** The name-resolution policy of `analyzeFile`. */
  function ResolveName(n: CapturedNode): (r: string)
    ensures r != ""
    ensures n.nodeType == FunctionExpression ==> r == "anonymous"
    ensures n.nodeType == FunctionDeclaration ==> r == FieldOr(n.nameText, "anonymous")
    ensures n.nodeType == MethodDefinition ==> r == FieldOr(n.nameText, "method")
    ensures n.nodeType == ArrowFunction ==>
              if n.parent.Some? && n.parent.value.nodeType == "variable_declarator"
              then r == FieldOr(n.parent.value.nameText, "arrow_func")
              else r == "anonymous"
  {
    match n.nodeType
    case FunctionDeclaration => FieldOr(n.nameText, "anonymous")
    case MethodDefinition => FieldOr(n.nameText, "method")
    case ArrowFunction =>
      if n.parent.Some? && n.parent.value.nodeType == "variable_declarator"
      then FieldOr(n.parent.value.nameText, "arrow_func")
      else "anonymous"
    case FunctionExpression => "anonymous"
  }

  function ToCandidate(n: CapturedNode): Candidate
  {
    Candidate(ResolveName(n), n.text, n.startIndex, n.endIndex)
  }

  function CandidatesOf(nodes: seq<CapturedNode>): (cs: seq<Candidate>)
    ensures |cs| == |nodes|
    ensures forall k | 0 <= k < |nodes| :: cs[k] == ToCandidate(nodes[k])
  {
    if nodes == [] then [] else CandidatesOf(nodes[..|nodes| - 1]) + [ToCandidate(nodes[|nodes| - 1])]
  }

  function Bodies(cs: seq<Candidate>): set<string>
  {
    set c | c in cs :: c.functionBody
  }

  /** Keep a candidate unless its body is in `seen` or was kept before. */
  function DedupFrom(cs: seq<Candidate>, seen: set<string>): seq<Candidate>
  {
    if cs == [] then []
    else if cs[0].functionBody in seen then DedupFrom(cs[1..], seen)
    else [cs[0]] + DedupFrom(cs[1..], seen + {cs[0].functionBody})
  }

  function Dedup(cs: seq<Candidate>): seq<Candidate>
  {
    DedupFrom(cs, {})
  }

  /** `a` is `b` with some elements left out, order kept. */
  ghost predicate IsSubsequence<T>(a: seq<T>, b: seq<T>)
    decreases |b|
  {
    if a == [] then true
    else if b == [] then false
    else (a[0] == b[0] && IsSubsequence(a[1..], b[1..])) || IsSubsequence(a, b[1..])
  }

  ghost predicate DistinctBodies(cs: seq<Candidate>)
  {
    forall i, j | 0 <= i < j < |cs| :: cs[i].functionBody != cs[j].functionBody
  }

  /** `analyzeFile` after the query: build one candidate per capture, then filter with a `seen` set. */
  method AnalyzeFile(nodes: seq<CapturedNode>) returns (found: seq<Candidate>)
    ensures found == Dedup(CandidatesOf(nodes))
  {
    var functionsFound: seq<Candidate> := [];
    for k := 0 to |nodes|
      invariant functionsFound == CandidatesOf(nodes[..k])
    {
      assert nodes[..k + 1][..k] == nodes[..k];
      functionsFound := functionsFound + [ToCandidate(nodes[k])];
    }
    assert nodes[..|nodes|] == nodes;
    found := FilterSeen(functionsFound);
  }

  /** The `filter` callback of `analyzeFile`: keep a candidate the first time its body is seen. */
  method FilterSeen(functionsFound: seq<Candidate>) returns (found: seq<Candidate>)
    ensures found == Dedup(functionsFound)
  {
    var seen: set<string> := {};
    found := [];
    for k := 0 to |functionsFound|
      invariant found + DedupFrom(functionsFound[k..], seen) == Dedup(functionsFound)
    {
      var fn := functionsFound[k];
      assert functionsFound[k..][1..] == functionsFound[k + 1..];
      if fn.functionBody !in seen {
        seen := seen + {fn.functionBody};
        found := found + [fn];
      }
    }
  }

  lemma {:induction false} DedupFromProps(cs: seq<Candidate>, seen: set<string>)
    ensures var out := DedupFrom(cs, seen);
      && IsSubsequence(out, cs)
      && DistinctBodies(out)
      && (forall c | c in out :: c.functionBody !in seen)
      && Bodies(cs) <= seen + Bodies(out)
  {
    var out := DedupFrom(cs, seen);
    if cs != [] {
      var b := cs[0].functionBody;
      if b in seen {
        DedupFromProps(cs[1..], seen);
        SubsequenceDropHead(out, cs);
        assert Bodies(cs) == {b} + Bodies(cs[1..]) by { BodiesCons(cs); }
      } else {
        var rest := DedupFrom(cs[1..], seen + {b});
        DedupFromProps(cs[1..], seen + {b});
        assert out == [cs[0]] + rest;
        assert out[1..] == rest;
        forall i, j | 0 <= i < j < |out| ensures out[i].functionBody != out[j].functionBody {
          if i == 0 {
            assert out[j] == rest[j - 1];
            assert out[j] in rest;
          } else {
            assert out[i] == rest[i - 1] && out[j] == rest[j - 1];
          }
        }
        assert Bodies(cs) == {b} + Bodies(cs[1..]) by { BodiesCons(cs); }
        assert Bodies(out) == {b} + Bodies(rest) by { BodiesCons(out); }
      }
    }
  }

  lemma BodiesCons(cs: seq<Candidate>)
    requires cs != []
    ensures Bodies(cs) == {cs[0].functionBody} + Bodies(cs[1..])
  {
    forall b | b in Bodies(cs) ensures b in {cs[0].functionBody} + Bodies(cs[1..]) {
      var c :| c in cs && c.functionBody == b;
      if c != cs[0] {
        var i :| 0 <= i < |cs| && cs[i] == c;
        assert cs[1..][i - 1] == c;
      }
    }
  }

  lemma {:induction false} SubsequenceDropHead<T>(a: seq<T>, b: seq<T>)
    requires b != [] && IsSubsequence(a, b[1..])
    ensures IsSubsequence(a, b)
  {
  }

  /** Dedup output is an order-preserving selection of its input, has pairwise distinct
      bodies, and every body of the input is represented. */
  lemma DedupProperties(cs: seq<Candidate>)
    ensures IsSubsequence(Dedup(cs), cs)
    ensures DistinctBodies(Dedup(cs))
    ensures Bodies(Dedup(cs)) == Bodies(cs)
  {
    DedupFromProps(cs, {});
    DedupSubsetBodies(cs, {});
  }

  lemma {:induction false} DedupSubsetBodies(cs: seq<Candidate>, seen: set<string>)
    ensures Bodies(DedupFrom(cs, seen)) <= Bodies(cs)
  {
    if cs != [] {
      BodiesCons(cs);
      var b := cs[0].functionBody;
      if b in seen {
        DedupSubsetBodies(cs[1..], seen);
      } else {
        DedupSubsetBodies(cs[1..], seen + {b});
        BodiesCons(DedupFrom(cs, seen));
        assert DedupFrom(cs, seen)[1..] == DedupFrom(cs[1..], seen + {b});
      }
    }
  }

  /** The first candidate carrying a given body is the one kept. */
  lemma {:induction false} DedupKeepsFirst(cs: seq<Candidate>, i: nat)
    requires i < |cs|
    requires forall j | 0 <= j < i :: cs[j].functionBody != cs[i].functionBody
    ensures cs[i] in Dedup(cs)
  {
    DedupFromKeepsFirst(cs, {}, i);
  }

  lemma {:induction false} DedupFromKeepsFirst(cs: seq<Candidate>, seen: set<string>, i: nat)
    requires i < |cs|
    requires cs[i].functionBody !in seen
    requires forall j | 0 <= j < i :: cs[j].functionBody != cs[i].functionBody
    ensures cs[i] in DedupFrom(cs, seen)
  {
    if i > 0 {
      var b := cs[0].functionBody;
      var seen' := if b in seen then seen else seen + {b};
      assert cs[1..][i - 1] == cs[i];
      DedupFromKeepsFirst(cs[1..], seen', i - 1);
    }
  }

  /** Each extracted candidate is the candidate of one captured node (its text and span),
      and has a non-empty name. */
  lemma ExtractedSpans(nodes: seq<CapturedNode>, c: Candidate)
    requires c in Dedup(CandidatesOf(nodes))
    ensures c in CandidatesOf(nodes)
    ensures c.functionName != ""
  {
    var cs := CandidatesOf(nodes);
    DedupFromProps(cs, {});
    SubsequenceMember(Dedup(cs), cs, c);
    var k :| 0 <= k < |cs| && cs[k] == c;
    assert cs[k] == ToCandidate(nodes[k]);
  }

  lemma {:induction false} SubsequenceMember<T>(a: seq<T>, b: seq<T>, x: T)
    requires IsSubsequence(a, b) && x in a
    ensures x in b
    decreases |b|
  {
    if a[0] == x && b != [] && a[0] == b[0] {
    } else if b != [] && a[0] == b[0] && IsSubsequence(a[1..], b[1..]) {
      if x == a[0] {
      } else {
        SubsequenceMember(a[1..], b[1..], x);
      }
    } else {
      SubsequenceMember(a, b[1..], x);
    }
  }
}
