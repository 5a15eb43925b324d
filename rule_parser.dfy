/**
  `RuleParser.parse`: turns a line "IF <conditions> THEN <output> [WEIGHT <w>]" into a rule
  document. Conditions are "[NOT] <variable> is [NOT] <class>" joined by AND and OR; the
  output is "Water Duration is [NOT] <class>"; variables and classes come from a fixed
  vocabulary and are compared case-insensitively. Every exception `parse` throws is an error
  value here.
*/
module RuleParsing {
  import opened Common
  import opened RuleText
  import opened JavaDouble

  datatype BoolOp = AND | OR

  /** The operator's name, as the rule document holds it. */
  function OpName(op: BoolOp): string {
    if op == AND then "AND" else "OR"
  }

  /** The text searched for in the upper-cased IF part. */
  function Pattern(op: BoolOp): string {
    " " + OpName(op) + " "
  }

  /** What the splitting loop skips after an operator: the pattern's length. */
  function Width(op: BoolOp): (w: nat)
    ensures w == |Pattern(op)|
  {
    if op == AND then 5 else 4
  }

  /** An operator found in the IF part, at the index of its leading space. */
  datatype OperatorInfo = OperatorInfo(position: nat, operator: BoolOp)

  datatype Condition = Condition(variable: string, className: string, negated: bool)

  datatype Output = Output(variable: string, className: string, negated: bool)

  /**
    The parsed rule. `operator` is set when the rule uses one kind of operator (AND when it
    has none) and `operators` when it mixes them; `id` stays unset and `enabled` true.
  */
  datatype RuleDocument = RuleDocument(
    id: Option<string>,
    operator: Option<BoolOp>,
    operators: Option<seq<BoolOp>>,
    conditions: seq<Condition>,
    output: Output,
    weight: Number,
    enabled: bool)

  /**
    Why `parse` throws: `SubstringOutOfBounds` is the `StringIndexOutOfBoundsException` of a
    `substring` with begin after end; every other case is an `IllegalArgumentException`.
  */
  datatype ParseError =
    | EmptyRule
    | BadFormat
    | WeightOutOfRange
    | InvalidWeight(text: string)
    | InvalidCondition(text: string)
    | UnknownVariable(variable: string)
    | InvalidClass(className: string, variable: string, allowed: set<string>)
    | BadThenClause
    | BadOutputVariable
    | SubstringOutOfBounds(begin: int, end: int)

  /** The message of an `IllegalArgumentException`; the allowed classes follow the last one. */
  function Message(e: ParseError): string
    requires !e.SubstringOutOfBounds?
  {
    match e
    case EmptyRule => "Rule cannot be empty"
    case BadFormat => "Rule must be in format: IF ... THEN ... [WEIGHT <value>]"
    case WeightOutOfRange => "Weight must be between 0.0 and 1.0"
    case InvalidWeight(text) => "Invalid weight value: " + text
    case InvalidCondition(text) => "Invalid condition format: " + text
    case UnknownVariable(variable) => "Unknown variable: " + variable
    case InvalidClass(className, variable, _) =>
      "Invalid class '" + className + "' for variable '" + variable + "'. Allowed: "
    case BadThenClause => "THEN clause must be in format: Water Duration is <Class>"
    case BadOutputVariable => "Output variable must be 'Water Duration'"
  }

  datatype Parsed<T> = Accept(value: T) | Reject(error: ParseError)

  /** The vocabulary: each variable, upper-cased, with the classes it allows. */
  const ValidClasses: map<string, set<string>> := map[
    "SOIL MOISTURE" := {"DRY", "NORMAL", "WET"},
    "TEMPERATURE" := {"COLD", "WARM", "HOT"},
    "RAIN FORECAST" := {"NONE", "LIGHT", "HEAVY"},
    "WATER DURATION" := {"SHORT", "MEDIUM", "LONG"}]

  /** The only output variable, as the document records it. */
  const OutputVariable: string := "Water Duration"

  /** The variable and the class belong to the vocabulary, ignoring case. */
  predicate Known(variable: string, className: string) {
    Upper(variable) in ValidClasses && Upper(className) in ValidClasses[Upper(variable)]
  }

  // ---------------------------------------------------------------- IF and THEN

  datatype Clauses = Clauses(ifPart: string, thenPart: string)

  /** In a text starting with "IF ", " THEN " can only start at index 2 or later. */
  lemma ThenAfterIf(u: string, r: int)
    requires StartsWith(u, "IF ") && r != -1 && r == IndexOf(u, " THEN ", 0)
    ensures 2 <= r && r + 6 <= |u|
  {
    assert u[0] == u[..3][0] && u[1] == u[..3][1];
    assert u[r] == u[r..r + 6][0];
  }

  /**
    The checks and cuts that open `parse`: blank text, the "IF " prefix and " THEN " (both
    case-insensitive), then the trimmed texts between "IF" and the first " THEN " and after it.
  */
  function Frame(ruleText: Option<string>): (r: Parsed<Clauses>)
    ensures r.Reject? <==> (ruleText.None? || IsBlank(ruleText.value) ||
      IndexOf(Upper(Trim(ruleText.value)), " THEN ", 0) == -1 || !StartsWith(Upper(Trim(ruleText.value)), "IF "))
    ensures r.Reject? ==> (r.error == EmptyRule <==> ruleText.None? || IsBlank(ruleText.value))
    ensures r.Reject? ==> r.error == EmptyRule || r.error == BadFormat
  {
    if ruleText.None? || IsBlank(ruleText.value) then Reject(EmptyRule)
    else
      var text := Trim(ruleText.value);
      var thenIndex := IndexOf(Upper(text), " THEN ", 0);
      if thenIndex == -1 || !StartsWith(Upper(text), "IF ") then Reject(BadFormat)
      else
        ThenAfterIf(Upper(text), thenIndex);
        Accept(Clauses(Trim(text[2..thenIndex]), Trim(text[thenIndex + 6..])))
  }

  // ---------------------------------------------------------------- WEIGHT

  datatype Weighted = Weighted(thenPart: string, weight: Number)

  /** `weight < bound` on a double: -Infinity is below every bound, NaN below none. */
  predicate Below(w: Number, bound: real) {
    match w
    case Finite(v) => v < bound
    case Infinite(negative) => negative
    case NaN => false
  }

  /** `weight > bound` on a double. */
  predicate Above(w: Number, bound: real) {
    match w
    case Finite(v) => v > bound
    case Infinite(negative) => !negative
    case NaN => false
  }

  /** The weights the range check lets through: the unit interval, and NaN. */
  predicate InUnitRange(w: Number) {
    w.NaN? || (w.Finite? && 0.0 <= w.value <= 1.0)
  }

  /** Where " WEIGHT " starts in the THEN part, ignoring case, or -1. */
  function WeightIndex(thenPart: string): (i: int)
    ensures i == -1 || (0 <= i && i + 8 <= |thenPart| && Upper(thenPart)[i..i + 8] == " WEIGHT ")
  {
    IndexOf(Upper(thenPart), " WEIGHT ", 0)
  }

  /** The trimmed text after " WEIGHT ", which is read as the weight. */
  function WeightText(thenPart: string): string
    requires WeightIndex(thenPart) != -1
  {
    Trim(thenPart[WeightIndex(thenPart) + 8..])
  }

  /**
    The optional WEIGHT clause: the THEN part is cut at the first " WEIGHT " (case-insensitive),
    the rest is parsed as a double and must not be below 0.0 or above 1.0. When a NaN is
    parsed, both comparisons are false and it is kept.
  */
  function SplitWeight(thenPart: string): (r: Parsed<Weighted>)
    ensures WeightIndex(thenPart) == -1 ==> r == Accept(Weighted(thenPart, Finite(1.0)))
    ensures WeightIndex(thenPart) != -1 ==>
              (r == Reject(InvalidWeight(WeightText(thenPart))) <==> ParseDouble(WeightText(thenPart)).None?)
    ensures WeightIndex(thenPart) != -1 && ParseDouble(WeightText(thenPart)).Some? ==>
              (r.Accept? <==> InUnitRange(ParseDouble(WeightText(thenPart)).value)) &&
              (r.Reject? ==> r.error == WeightOutOfRange)
    ensures WeightIndex(thenPart) != -1 && r.Accept? ==>
              ParseDouble(WeightText(thenPart)) == Some(r.value.weight) &&
              r.value.thenPart == Trim(thenPart[..WeightIndex(thenPart)])
    ensures r.Accept? ==> InUnitRange(r.value.weight)
  {
    var weightIndex := WeightIndex(thenPart);
    if weightIndex == -1 then Accept(Weighted(thenPart, Finite(1.0)))
    else
      var weightText := WeightText(thenPart);
      var rest := Trim(thenPart[..weightIndex]);
      match ParseDouble(weightText)
      case None => Reject(InvalidWeight(weightText))
      case Some(w) => if Below(w, 0.0) || Above(w, 1.0) then Reject(WeightOutOfRange) else Accept(Weighted(rest, w))
  }

  // ---------------------------------------------------------------- operators

  /** Positions found for one pattern, tagged with its operator. */
  function Tagged(positions: seq<nat>, op: BoolOp): seq<OperatorInfo> {
    seq(|positions|, i requires 0 <= i < |positions| => OperatorInfo(positions[i], op))
  }

  /** Every AND position, then every OR position, as the two loops of `parse` collect them. */
  function Collected(upperIf: string): seq<OperatorInfo> {
    Tagged(Occurrences(upperIf, " AND ", 0), AND) + Tagged(Occurrences(upperIf, " OR ", 0), OR)
  }

  predicate SortedByPosition(ops: seq<OperatorInfo>) {
    forall i, j :: 0 <= i < j < |ops| ==> ops[i].position <= ops[j].position
  }

  /** Places x after every element whose position is at most its own. */
  function InsertByPosition(sorted: seq<OperatorInfo>, x: OperatorInfo): seq<OperatorInfo> {
    if |sorted| == 0 then [x]
    else if sorted[|sorted| - 1].position <= x.position then sorted + [x]
    else InsertByPosition(sorted[..|sorted| - 1], x) + [sorted[|sorted| - 1]]
  }

  /** `List.sort` by position: a stable sort, written as insertion sort. */
  function SortByPosition(ops: seq<OperatorInfo>): seq<OperatorInfo> {
    if |ops| == 0 then []
    else InsertByPosition(SortByPosition(ops[..|ops| - 1]), ops[|ops| - 1])
  }

  lemma SortedSnoc(s: seq<OperatorInfo>, x: OperatorInfo)
    requires SortedByPosition(s)
    requires forall i :: 0 <= i < |s| ==> s[i].position <= x.position
    ensures SortedByPosition(s + [x])
  {
  }

  lemma {:induction false} InsertByPositionKeeps(sorted: seq<OperatorInfo>, x: OperatorInfo)
    ensures multiset(InsertByPosition(sorted, x)) == multiset(sorted) + multiset{x}
  {
    if |sorted| > 0 && sorted[|sorted| - 1].position > x.position {
      InsertByPositionKeeps(sorted[..|sorted| - 1], x);
      assert sorted == sorted[..|sorted| - 1] + [sorted[|sorted| - 1]];
    }
  }

  lemma {:induction false} InsertByPositionSorted(sorted: seq<OperatorInfo>, x: OperatorInfo)
    requires SortedByPosition(sorted)
    ensures SortedByPosition(InsertByPosition(sorted, x))
  {
    if |sorted| > 0 {
      var init, last := sorted[..|sorted| - 1], sorted[|sorted| - 1];
      if last.position <= x.position {
        SortedSnoc(sorted, x);
      } else {
        InsertByPositionSorted(init, x);
        InsertByPositionKeeps(init, x);
        var inserted := InsertByPosition(init, x);
        forall i | 0 <= i < |inserted| ensures inserted[i].position <= last.position {
          assert inserted[i] in multiset(inserted);
          if inserted[i] != x {
            assert inserted[i] in multiset(init);
            var k :| 0 <= k < |init| && init[k] == inserted[i];
            assert sorted[k] == init[k];
          }
        }
        SortedSnoc(inserted, last);
      }
    }
  }

  /** Sorting orders the operators by position and keeps each of them. */
  lemma {:induction false} SortByPositionSorted(ops: seq<OperatorInfo>)
    ensures SortedByPosition(SortByPosition(ops))
    ensures multiset(SortByPosition(ops)) == multiset(ops)
  {
    if |ops| > 0 {
      SortByPositionSorted(ops[..|ops| - 1]);
      InsertByPositionSorted(SortByPosition(ops[..|ops| - 1]), ops[|ops| - 1]);
      InsertByPositionKeeps(SortByPosition(ops[..|ops| - 1]), ops[|ops| - 1]);
      assert ops == ops[..|ops| - 1] + [ops[|ops| - 1]];
    }
  }

  /** The operators of an IF part, sorted by position. */
  function Operators(ifPart: string): seq<OperatorInfo> {
    SortByPosition(Collected(Upper(ifPart)))
  }

  /** Each collected operator is an occurrence of its pattern. */
  lemma CollectedMatch(u: string)
    ensures forall k :: 0 <= k < |Collected(u)| ==> OccursAt(u, Pattern(Collected(u)[k].operator), Collected(u)[k].position)
  {
    OccurrencesMatch(u, " AND ", 0);
    OccurrencesMatch(u, " OR ", 0);
    assert Pattern(AND) == " AND " && Pattern(OR) == " OR ";
    var ands := Occurrences(u, " AND ", 0);
    forall k | 0 <= k < |Collected(u)|
      ensures OccursAt(u, Pattern(Collected(u)[k].operator), Collected(u)[k].position)
    {
      if k >= |ands| {
        assert Collected(u)[k] == OperatorInfo(Occurrences(u, " OR ", 0)[k - |ands|], OR);
      }
    }
  }

  /** Every occurrence of a pattern overlaps a collected operator of that kind. */
  lemma CollectedParts(u: string, op: BoolOp)
    ensures multiset(Tagged(Occurrences(u, Pattern(op), 0), op)) <= multiset(Collected(u))
  {
    var ands := Tagged(Occurrences(u, " AND ", 0), AND);
    var ors := Tagged(Occurrences(u, " OR ", 0), OR);
    assert multiset(Collected(u)) == multiset(ands) + multiset(ors);
    if op == AND {
      assert Pattern(op) == " AND ";
    } else {
      assert Pattern(op) == " OR ";
    }
  }

  lemma CollectedComplete(u: string, op: BoolOp, p: nat)
    requires OccursAt(u, Pattern(op), p)
    ensures exists x :: x in multiset(Collected(u)) && x.operator == op && x.position <= p < x.position + Width(op)
  {
    var found := Occurrences(u, Pattern(op), 0);
    OccurrencesComplete(u, Pattern(op), 0, p);
    var k :| 0 <= k < |found| && found[k] <= p < found[k] + |Pattern(op)|;
    var x := OperatorInfo(found[k], op);
    assert Tagged(found, op)[k] == x;
    assert x in multiset(Tagged(found, op));
    CollectedParts(u, op);
  }

  /**
    The operators are sorted by position, and they are exactly the occurrences of " AND " and
    " OR " in the upper-cased IF part that the two search loops collect.
  */
  lemma OperatorsFound(ifPart: string)
    ensures SortedByPosition(Operators(ifPart))
    ensures multiset(Operators(ifPart)) == multiset(Collected(Upper(ifPart)))
    ensures forall i :: 0 <= i < |Operators(ifPart)| ==>
              OccursAt(Upper(ifPart), Pattern(Operators(ifPart)[i].operator), Operators(ifPart)[i].position)
  {
    var u := Upper(ifPart);
    var ops := Operators(ifPart);
    var collected := Collected(u);
    SortByPositionSorted(collected);
    CollectedMatch(u);
    forall i | 0 <= i < |ops| ensures OccursAt(u, Pattern(ops[i].operator), ops[i].position) {
      assert ops[i] in multiset(collected);
      var k :| 0 <= k < |collected| && collected[k] == ops[i];
    }
  }

  /** Any other occurrence of " AND " or " OR " overlaps an operator of the same kind. */
  lemma OperatorsComplete(ifPart: string, op: BoolOp, p: nat)
    requires OccursAt(Upper(ifPart), Pattern(op), p)
    ensures exists i :: 0 <= i < |Operators(ifPart)| && Operators(ifPart)[i].operator == op &&
              Operators(ifPart)[i].position <= p < Operators(ifPart)[i].position + Width(op)
  {
    var ops := Operators(ifPart);
    SortByPositionSorted(Collected(Upper(ifPart)));
    CollectedComplete(Upper(ifPart), op, p);
    var x :| x in multiset(Collected(Upper(ifPart))) && x.operator == op && x.position <= p < x.position + Width(op);
    assert x in multiset(ops);
    var i :| 0 <= i < |ops| && ops[i] == x;
  }

  /** One operator name per operator, in order (the loop that fills `operatorSequence`). */
  function OperatorNames(ops: seq<OperatorInfo>): seq<BoolOp> {
    seq(|ops|, i requires 0 <= i < |ops| => ops[i].operator)
  }

  /** More than one distinct operator: `new HashSet<>(operatorSequence).size() > 1`. */
  predicate Mixed(sequence: seq<BoolOp>) {
    |set op | op in sequence| > 1
  }

  /**
    The document's `operator` and `operators`: AND and nothing without operators, the one
    operator used and nothing when there is one kind, nothing and the sequence when mixed.
  */
  function Kinds(sequence: seq<BoolOp>): (r: (Option<BoolOp>, Option<seq<BoolOp>>))
    ensures |sequence| == 0 ==> r == (Some(AND), None)
    ensures r.0.Some? != r.1.Some?
    ensures r.1.Some? <==> AND in sequence && OR in sequence
    ensures r.1.Some? ==> r.1.value == sequence
    ensures r.0.Some? ==> forall i :: 0 <= i < |sequence| ==> sequence[i] == r.0.value
  {
    MixedBoth(sequence);
    if |sequence| == 0 then (Some(AND), None)
    else if Mixed(sequence) then (None, Some(sequence))
    else (Some(sequence[0]), None)
  }

  /** There are only two operators: the set of those used is larger than one when both are. */
  lemma MixedBoth(sequence: seq<BoolOp>)
    ensures Mixed(sequence) <==> AND in sequence && OR in sequence
    ensures !Mixed(sequence) && |sequence| > 0 ==> forall i :: 0 <= i < |sequence| ==> sequence[i] == sequence[0]
  {
    var used := set op | op in sequence;
    if AND in sequence && OR in sequence {
      assert {AND, OR} <= used;
      assert |{AND, OR}| == 2;
      SubsetSize({AND, OR}, used);
    } else {
      if AND !in sequence {
        forall op | op in used ensures op == OR { assert op in sequence; }
        SubsetSize(used, {OR});
      } else {
        forall op | op in used ensures op == AND { assert op in sequence; }
        SubsetSize(used, {AND});
      }
      if |sequence| > 0 {
        forall i | 0 <= i < |sequence| ensures sequence[i] == sequence[0] {
          assert sequence[i] in used && sequence[0] in used;
        }
      }
    }
  }

  lemma SubsetSize(a: set<BoolOp>, b: set<BoolOp>)
    requires a <= b
    ensures |a| <= |b|
  {
    assert b == a + (b - a);
  }

  // ---------------------------------------------------------------- splitting the IF part

  /**
    The condition texts from `lastEnd` on: the trimmed text before each operator, then the
    trimmed rest after the last. `substring` throws when an operator starts before the end of
    the previous one, which happens when AND and OR overlap, as in "x AND OR y".
  */
  function Pieces(ifPart: string, ops: seq<OperatorInfo>, lastEnd: nat): (r: Parsed<seq<string>>)
    ensures r.Accept? ==> |r.value| == |ops| + 1
    ensures r.Reject? ==> r.error.SubstringOutOfBounds?
    decreases |ops|
  {
    if |ops| == 0 then
      if lastEnd <= |ifPart| then Accept([Trim(ifPart[lastEnd..])]) else Reject(SubstringOutOfBounds(lastEnd, |ifPart|))
    else
      var p := ops[0].position;
      if lastEnd > p || p > |ifPart| then Reject(SubstringOutOfBounds(lastEnd, p))
      else
        match Pieces(ifPart, ops[1..], p + Width(ops[0].operator))
        case Reject(e) => Reject(e)
        case Accept(rest) => Accept([Trim(ifPart[lastEnd..p])] + rest)
  }

  /** The `i`-th condition text starts after the previous operator (at `from` for the first). */
  function PieceStart(ops: seq<OperatorInfo>, from: nat, i: nat): nat
    requires i <= |ops|
  {
    if i == 0 then from else ops[i - 1].position + Width(ops[i - 1].operator)
  }

  /** ... and ends where the next operator starts (at the end of the IF part for the last). */
  function PieceEnd(ops: seq<OperatorInfo>, length: nat, i: nat): nat
    requires i <= |ops|
  {
    if i < |ops| then ops[i].position else length
  }

  /** Every piece begins no later than it ends. */
  predicate Chained(ops: seq<OperatorInfo>, from: nat, length: nat) {
    forall i :: 0 <= i <= |ops| ==> PieceStart(ops, from, i) <= PieceEnd(ops, length, i)
  }

  lemma ChainedTail(ops: seq<OperatorInfo>, from: nat, length: nat)
    requires |ops| > 0
    ensures Chained(ops, from, length) <==>
              from <= ops[0].position && Chained(ops[1..], ops[0].position + Width(ops[0].operator), length)
  {
    var tail := ops[1..];
    var from' := ops[0].position + Width(ops[0].operator);
    forall i | 0 <= i <= |tail|
      ensures PieceStart(tail, from', i) == PieceStart(ops, from, i + 1)
      ensures PieceEnd(tail, length, i) == PieceEnd(ops, length, i + 1)
    {
      if i > 0 { assert tail[i - 1] == ops[i]; }
      if i < |tail| { assert tail[i] == ops[i + 1]; }
    }
    if from <= ops[0].position && Chained(tail, from', length) {
      forall i | 0 <= i <= |ops| ensures PieceStart(ops, from, i) <= PieceEnd(ops, length, i) {
        if i > 0 {
          assert PieceStart(tail, from', i - 1) <= PieceEnd(tail, length, i - 1);
        }
      }
    }
    if Chained(ops, from, length) {
      assert PieceStart(ops, from, 0) <= PieceEnd(ops, length, 0);
      forall i | 0 <= i <= |tail| ensures PieceStart(tail, from', i) <= PieceEnd(tail, length, i) {
        assert PieceStart(ops, from, i + 1) <= PieceEnd(ops, length, i + 1);
      }
    }
  }

  /** A chain of pieces starting at `from` stays within `length`. */
  lemma {:induction false} ChainedWithin(ops: seq<OperatorInfo>, from: nat, length: nat)
    requires Chained(ops, from, length)
    ensures from <= length
    decreases |ops|
  {
    if |ops| == 0 {
      assert PieceStart(ops, from, 0) <= PieceEnd(ops, length, 0);
    } else {
      ChainedTail(ops, from, length);
      ChainedWithin(ops[1..], ops[0].position + Width(ops[0].operator), length);
    }
  }

  /** Splitting succeeds exactly when the operators are chained. */
  lemma {:induction false} PiecesAccepted(ifPart: string, ops: seq<OperatorInfo>, lastEnd: nat)
    ensures Pieces(ifPart, ops, lastEnd).Accept? <==> Chained(ops, lastEnd, |ifPart|)
    decreases |ops|
  {
    if |ops| == 0 {
      assert PieceStart(ops, lastEnd, 0) == lastEnd && PieceEnd(ops, |ifPart|, 0) == |ifPart|;
    } else {
      var next := ops[0].position + Width(ops[0].operator);
      ChainedTail(ops, lastEnd, |ifPart|);
      PiecesAccepted(ifPart, ops[1..], next);
      if Chained(ops[1..], next, |ifPart|) {
        ChainedWithin(ops[1..], next, |ifPart|);
      }
    }
  }

  /** The i-th condition text is the trimmed text between the (i-1)-th and the i-th operator. */
  lemma {:induction false} PiecesTexts(ifPart: string, ops: seq<OperatorInfo>, lastEnd: nat)
    requires Pieces(ifPart, ops, lastEnd).Accept?
    ensures forall i :: 0 <= i <= |ops| ==>
              PieceStart(ops, lastEnd, i) <= PieceEnd(ops, |ifPart|, i) <= |ifPart| &&
              Pieces(ifPart, ops, lastEnd).value[i] == Trim(ifPart[PieceStart(ops, lastEnd, i)..PieceEnd(ops, |ifPart|, i)])
    decreases |ops|
  {
    if |ops| == 0 {
      assert PieceStart(ops, lastEnd, 0) == lastEnd && PieceEnd(ops, |ifPart|, 0) == |ifPart|;
      assert ifPart[lastEnd..|ifPart|] == ifPart[lastEnd..];
    } else {
      var p := ops[0].position;
      var next := p + Width(ops[0].operator);
      var tail := ops[1..];
      assert lastEnd <= p <= |ifPart|;
      PiecesTexts(ifPart, tail, next);
      var texts := Pieces(ifPart, ops, lastEnd).value;
      var rest := Pieces(ifPart, tail, next).value;
      assert texts == [Trim(ifPart[lastEnd..p])] + rest;
      assert PieceStart(ops, lastEnd, 0) == lastEnd && PieceEnd(ops, |ifPart|, 0) == p;
      forall i | 0 < i <= |ops|
        ensures PieceStart(ops, lastEnd, i) <= PieceEnd(ops, |ifPart|, i) <= |ifPart|
        ensures texts[i] == Trim(ifPart[PieceStart(ops, lastEnd, i)..PieceEnd(ops, |ifPart|, i)])
      {
        assert texts[i] == rest[i - 1];
        if i < |ops| { assert tail[i - 1] == ops[i]; }
        assert PieceStart(tail, next, i - 1) == PieceStart(ops, lastEnd, i);
        assert PieceEnd(tail, |ifPart|, i - 1) == PieceEnd(ops, |ifPart|, i);
      }
    }
  }

  /** The condition texts: the whole IF part without operators, the pieces otherwise. */
  function SplitConditions(ifPart: string, ops: seq<OperatorInfo>): (r: Parsed<seq<string>>)
    ensures r.Accept? ==> |r.value| == |ops| + 1
    ensures r.Reject? ==> r.error.SubstringOutOfBounds?
  {
    if |ops| == 0 then Accept([Trim(ifPart)]) else Pieces(ifPart, ops, 0)
  }

  // ---------------------------------------------------------------- conditions

  /** `validateClass`: the variable must be known and the class among those it allows. */
  function ValidateClass(variable: string, className: string): (r: Option<ParseError>)
    ensures r.None? <==> Known(variable, className)
    ensures r.Some? ==> r.value == UnknownVariable(variable) || r.value.InvalidClass?
  {
    var v := Upper(variable);
    if v !in ValidClasses then Some(UnknownVariable(variable))
    else if Upper(className) !in ValidClasses[v] then Some(InvalidClass(className, variable, ValidClasses[v]))
    else None
  }

  /** `validateCondition`: an unknown variable is reported before its class is looked at. */
  function ValidateCondition(variable: string, className: string): (r: Option<ParseError>)
    ensures r.None? <==> Known(variable, className)
    ensures Upper(variable) !in ValidClasses ==> r == Some(UnknownVariable(variable))
  {
    if Upper(variable) !in ValidClasses then Some(UnknownVariable(variable)) else ValidateClass(variable, className)
  }

  /** A leading "NOT " (any case) sets the negation and is cut off together with the space after it. */
  function StripNot(s: string): (bool, string) {
    if StartsWith(Upper(s), "NOT ") then (true, Trim(s[4..])) else (false, s)
  }

  /**
    One condition text: an optional "NOT ", the variable, " is " (any case, any white space
    around it), an optional "NOT " and the class. Either NOT negates the condition; two do
    not cancel out.
  */
  function ParseCondition(c: string): (r: Parsed<Condition>)
    ensures |SplitIs(StripNot(Trim(c)).1)| != 2 <==> r == Reject(InvalidCondition(c))
    ensures r.Accept? ==> Known(r.value.variable, r.value.className)
    ensures r.Reject? ==> r.error == InvalidCondition(c) || r.error.UnknownVariable? || r.error.InvalidClass?
  {
    var (negatedBefore, body) := StripNot(Trim(c));
    var pair := SplitIs(body);
    if |pair| != 2 then Reject(InvalidCondition(c))
    else
      var variable := Trim(pair[0]);
      var (negatedAfter, className) := StripNot(Trim(pair[1]));
      match ValidateCondition(variable, className)
      case Some(e) => Reject(e)
      case None => Accept(Condition(variable, className, negatedBefore || negatedAfter))
  }

  /** The conditions of the texts in order, or the error of the first text that fails. */
  function ConditionsOf(texts: seq<string>): (r: Parsed<seq<Condition>>)
    ensures r.Accept? ==> |r.value| == |texts| && forall i :: 0 <= i < |texts| ==> ParseCondition(texts[i]) == Accept(r.value[i])
  {
    if |texts| == 0 then Accept([])
    else
      match ParseCondition(texts[0])
      case Reject(e) => Reject(e)
      case Accept(c) =>
        match ConditionsOf(texts[1..])
        case Reject(e) => Reject(e)
        case Accept(rest) => Accept([c] + rest)
  }

  /** The verdicts on each text, in order. */
  function Verdicts(texts: seq<string>): (vs: seq<Parsed<Condition>>)
    ensures |vs| == |texts| && forall i :: 0 <= i < |texts| ==> vs[i] == ParseCondition(texts[i])
  {
    seq(|texts|, i requires 0 <= i < |texts| => ParseCondition(texts[i]))
  }

  /** The values of the verdicts in order, or the first rejection. */
  function Gather<T>(vs: seq<Parsed<T>>): Parsed<seq<T>> {
    if |vs| == 0 then Accept([])
    else
      match vs[0]
      case Reject(e) => Reject(e)
      case Accept(c) =>
        match Gather(vs[1..])
        case Reject(e) => Reject(e)
        case Accept(rest) => Accept([c] + rest)
  }

  /** A rejected gathering is the first rejection, every verdict before it an acceptance. */
  lemma {:induction false} GatherRejected<T>(vs: seq<Parsed<T>>)
    requires Gather(vs).Reject?
    ensures exists i :: 0 <= i < |vs| && vs[i] == Reject(Gather(vs).error) && forall j :: 0 <= j < i ==> vs[j].Accept?
  {
    if vs[0].Accept? {
      var tail := vs[1..];
      GatherRejected(tail);
      var i :| 0 <= i < |tail| && tail[i] == Reject(Gather(tail).error) && forall j :: 0 <= j < i ==> tail[j].Accept?;
      assert vs[i + 1] == tail[i];
      assert forall j :: 0 < j < i + 1 ==> vs[j] == tail[j - 1];
    }
  }

  /** Parsing the texts is gathering their verdicts. */
  lemma {:induction false} ConditionsOfGathers(texts: seq<string>)
    ensures ConditionsOf(texts) == Gather(Verdicts(texts))
  {
    if |texts| > 0 {
      ConditionsOfGathers(texts[1..]);
      assert Verdicts(texts)[1..] == Verdicts(texts[1..]);
    }
  }

  /** A rejection is the error of the first condition text that fails, every one before it accepted. */
  lemma ConditionsOfRejected(texts: seq<string>)
    requires ConditionsOf(texts).Reject?
    ensures exists i :: 0 <= i < |texts| && Verdicts(texts)[i] == Reject(ConditionsOf(texts).error) &&
                        forall j :: 0 <= j < i ==> Verdicts(texts)[j].Accept?
  {
    ConditionsOfGathers(texts);
    GatherRejected(Verdicts(texts));
  }

  // ---------------------------------------------------------------- THEN part

  /**
    The THEN part: "Water Duration" (any case), " is ", an optional "NOT " and one of the
    classes of water duration. The document spells the variable "Water Duration".
  */
  function ParseOutput(thenPart: string): (r: Parsed<Output>)
    ensures |SplitIs(thenPart)| != 2 <==> r == Reject(BadThenClause)
    ensures |SplitIs(thenPart)| == 2 ==>
              (r == Reject(BadOutputVariable) <==> !EqualsIgnoreCase(Trim(SplitIs(thenPart)[0]), OutputVariable))
    ensures r.Accept? ==> r.value.variable == OutputVariable && Known(OutputVariable, r.value.className)
    ensures r.Reject? ==> r.error == BadThenClause || r.error == BadOutputVariable || r.error.InvalidClass?
  {
    var split := SplitIs(thenPart);
    if |split| != 2 then Reject(BadThenClause)
    else
      var outVar := Trim(split[0]);
      var (negated, outClass) := StripNot(Trim(split[1]));
      if !EqualsIgnoreCase(outVar, OutputVariable) then Reject(BadOutputVariable)
      else
        assert Upper(OutputVariable) == "WATER DURATION";
        match ValidateClass(OutputVariable, outClass)
        case Some(e) => Reject(e)
        case None => Accept(Output(OutputVariable, outClass, negated))
  }

  // ---------------------------------------------------------------- the whole rule

  /**
    `parse`, step by step in the order its exceptions arise: frame, weight, operators and
    splitting, conditions left to right, then the output.
  */
  function ParseRule(ruleText: Option<string>): Parsed<RuleDocument> {
    match Frame(ruleText)
    case Reject(e) => Reject(e)
    case Accept(clauses) =>
      match SplitWeight(clauses.thenPart)
      case Reject(e) => Reject(e)
      case Accept(weighted) => ParseClauses(clauses.ifPart, weighted)
  }

  /** What follows the weight: operators and their kinds, conditions, then the output. */
  function ParseClauses(ifPart: string, weighted: Weighted): Parsed<RuleDocument> {
    var ops := Operators(ifPart);
    var kinds := Kinds(OperatorNames(ops));
    match SplitConditions(ifPart, ops)
    case Reject(e) => Reject(e)
    case Accept(texts) =>
      match ConditionsOf(texts)
      case Reject(e) => Reject(e)
      case Accept(conditions) =>
        match ParseOutput(weighted.thenPart)
        case Reject(e) => Reject(e)
        case Accept(output) => Accept(RuleDocument(None, kinds.0, kinds.1, conditions, output, weighted.weight, true))
  }

  // ---------------------------------------------------------------- what a parsed rule satisfies

  /** Blank text, and only blank text, is an empty rule; a missing IF or THEN is a format error. */
  lemma ParseRuleFormat(ruleText: Option<string>)
    ensures ParseRule(ruleText) == Reject(EmptyRule) <==> ruleText.None? || IsBlank(ruleText.value)
    ensures ParseRule(ruleText) == Reject(BadFormat) <==>
              !(ruleText.None? || IsBlank(ruleText.value)) &&
              (IndexOf(Upper(Trim(ruleText.value)), " THEN ", 0) == -1 || !StartsWith(Upper(Trim(ruleText.value)), "IF "))
  {
    if Frame(ruleText).Accept? {
      var clauses := Frame(ruleText).value;
      if SplitWeight(clauses.thenPart).Accept? {
        ClausesErrors(clauses.ifPart, SplitWeight(clauses.thenPart).value);
      }
    }
  }

  /** The later stages fail for reasons of their own, never for an empty or malformed frame. */
  lemma ClausesErrors(ifPart: string, weighted: Weighted)
    ensures ParseClauses(ifPart, weighted).Reject? ==>
              ParseClauses(ifPart, weighted).error != EmptyRule && ParseClauses(ifPart, weighted).error != BadFormat
  {
    var ops := Operators(ifPart);
    if SplitConditions(ifPart, ops).Accept? {
      var texts := SplitConditions(ifPart, ops).value;
      if ConditionsOf(texts).Reject? {
        ConditionsOfRejected(texts);
        var i :| 0 <= i < |texts| && Verdicts(texts)[i] == Reject(ConditionsOf(texts).error);
        assert ParseCondition(texts[i]) == Reject(ConditionsOf(texts).error);
      }
    }
  }

  /**
    What the last stage accepts: one condition more than operators, every condition and the
    output in the vocabulary, and exactly one of `operator` and `operators` set, the latter
    only when AND and OR are mixed.
  */
  lemma ClausesAccepted(ifPart: string, weighted: Weighted)
    requires ParseClauses(ifPart, weighted).Accept?
    ensures var ops := Operators(ifPart);
            var d := ParseClauses(ifPart, weighted).value;
            d.id.None? && d.enabled && d.weight == weighted.weight &&
            |d.conditions| == |ops| + 1 &&
            (forall i :: 0 <= i < |d.conditions| ==> Known(d.conditions[i].variable, d.conditions[i].className)) &&
            d.output.variable == OutputVariable && Known(OutputVariable, d.output.className) &&
            d.operator.Some? != d.operators.Some? &&
            (|ops| == 0 ==> d.operator == Some(AND)) &&
            (d.operators.Some? <==> AND in OperatorNames(ops) && OR in OperatorNames(ops)) &&
            (d.operators.Some? ==> d.operators.value == OperatorNames(ops))
  {
    var ops := Operators(ifPart);
    var d := ParseClauses(ifPart, weighted).value;
    var texts := SplitConditions(ifPart, ops).value;
    assert ConditionsOf(texts) == Accept(d.conditions);
    forall i | 0 <= i < |d.conditions| ensures Known(d.conditions[i].variable, d.conditions[i].className) {
      assert ParseCondition(texts[i]) == Accept(d.conditions[i]);
    }
  }

  /**
    The i-th condition is the trimmed text between the (i-1)-th and the i-th operator of the
    IF part, parsed.
  */
  lemma ClausesConditions(ifPart: string, weighted: Weighted)
    requires ParseClauses(ifPart, weighted).Accept?
    ensures var ops := Operators(ifPart);
            var d := ParseClauses(ifPart, weighted).value;
            |d.conditions| == |ops| + 1 &&
            forall i :: 0 <= i < |d.conditions| ==>
              PieceStart(ops, 0, i) <= PieceEnd(ops, |ifPart|, i) <= |ifPart| &&
              ParseCondition(Trim(ifPart[PieceStart(ops, 0, i)..PieceEnd(ops, |ifPart|, i)])) == Accept(d.conditions[i])
  {
    var ops := Operators(ifPart);
    var conditions := ParseClauses(ifPart, weighted).value.conditions;
    var texts := SplitConditions(ifPart, ops).value;
    assert ConditionsOf(texts) == Accept(conditions);
    if |ops| == 0 {
      assert PieceStart(ops, 0, 0) == 0 && PieceEnd(ops, |ifPart|, 0) == |ifPart|;
      assert ifPart[0..|ifPart|] == ifPart;
    } else {
      PiecesTexts(ifPart, ops, 0);
    }
    forall i | 0 <= i < |conditions|
      ensures ParseCondition(Trim(ifPart[PieceStart(ops, 0, i)..PieceEnd(ops, |ifPart|, i)])) == Accept(conditions[i])
    {
      assert ParseCondition(texts[i]) == Accept(conditions[i]);
    }
  }

  /**
    An accepted rule: no id, enabled, the weight parsed from the text after " WEIGHT " (1.0
    without a WEIGHT clause) and let through by the range check, so in [0, 1] or NaN, the
    output parsed from the THEN part before the weight, and its IF part accepted by the last
    stage.
  */
  lemma ParseRuleAccepted(ruleText: Option<string>)
    requires ParseRule(ruleText).Accept?
    ensures Frame(ruleText).Accept? && SplitWeight(Frame(ruleText).value.thenPart).Accept?
    ensures var clauses := Frame(ruleText).value;
            var weighted := SplitWeight(clauses.thenPart).value;
            var d := ParseRule(ruleText).value;
            d == ParseClauses(clauses.ifPart, weighted).value &&
            d.id.None? && d.enabled && InUnitRange(d.weight) &&
            (WeightIndex(clauses.thenPart) == -1 ==> d.weight == Finite(1.0)) &&
            (WeightIndex(clauses.thenPart) != -1 ==> ParseDouble(WeightText(clauses.thenPart)) == Some(d.weight)) &&
            ParseOutput(weighted.thenPart) == Accept(d.output)
  {
    var clauses := Frame(ruleText).value;
    ClausesAccepted(clauses.ifPart, SplitWeight(clauses.thenPart).value);
  }

  /** A rule whose operators overlap can only be turned down by `substring`. */
  lemma ParseRuleUnchained(ruleText: Option<string>)
    requires Frame(ruleText).Accept? && SplitWeight(Frame(ruleText).value.thenPart).Accept?
    requires var ifPart := Frame(ruleText).value.ifPart; !Chained(Operators(ifPart), 0, |ifPart|)
    ensures ParseRule(ruleText).Reject? && ParseRule(ruleText).error.SubstringOutOfBounds?
  {
    var ifPart := Frame(ruleText).value.ifPart;
    var ops := Operators(ifPart);
    PiecesAccepted(ifPart, ops, 0);
  }

  // ---------------------------------------------------------------- round trips

  /** The vocabulary is written in capital letters, and no variable starts with N. */
  predicate Capitals(s: string) {
    forall k :: 0 <= k < |s| ==> !('a' <= s[k] <= 'z')
  }

  lemma UpperOfCapitals(s: string)
    requires Capitals(s)
    ensures Upper(s) == s
  {
  }

  lemma CapitalWord(w: string)
    requires |w| > 0 && forall k :: 0 <= k < |w| ==> 'A' <= w[k] <= 'Z'
    ensures Word(w) && Capitals(w)
  {
  }

  lemma CapitalPhrase(w1: string, w2: string)
    requires |w1| > 0 && forall k :: 0 <= k < |w1| ==> 'A' <= w1[k] <= 'Z'
    requires |w2| > 0 && (forall k :: 0 <= k < |w2| ==> 'A' <= w2[k] <= 'Z') && w2[0] != 'I'
    ensures Phrase(w1 + " " + w2) && Capitals(w1 + " " + w2)
  {
    JoinPhrase(w1, w2);
    var j := w1 + " " + w2;
    forall k | 0 <= k < |j| ensures !('a' <= j[k] <= 'z') {
      if k > |w1| { assert j[k] == w2[k - |w1| - 1]; } else if k < |w1| { assert j[k] == w1[k]; }
    }
  }

  /** The variables are capital phrases; none starts with N, so none reads as a negation. */
  lemma VariableSpelling(v: string)
    requires v in ValidClasses
    ensures Phrase(v) && Capitals(v) && v[0] != 'N'
  {
    if v == "SOIL MOISTURE" {
      SpelledPhrase("SOIL", "MOISTURE", v);
    } else if v == "RAIN FORECAST" {
      SpelledPhrase("RAIN", "FORECAST", v);
    } else if v == "WATER DURATION" {
      SpelledPhrase("WATER", "DURATION", v);
    } else {
      CapitalWord(v);
      WordPhrase(v);
    }
  }

  lemma SpelledPhrase(w1: string, w2: string, v: string)
    requires |w1| > 0 && forall k :: 0 <= k < |w1| ==> 'A' <= w1[k] <= 'Z'
    requires |w2| > 0 && (forall k :: 0 <= k < |w2| ==> 'A' <= w2[k] <= 'Z') && w2[0] != 'I'
    requires v == w1 + " " + w2
    ensures Phrase(v) && Capitals(v)
  {
    CapitalPhrase(w1, w2);
  }

  /** The classes are capital words, none starting with I. */
  lemma ClassSpelling(v: string, k: string)
    requires v in ValidClasses && k in ValidClasses[v]
    ensures Word(k) && Capitals(k) && k[0] != 'I'
  {
    assert ValidClasses.Keys == {"SOIL MOISTURE", "TEMPERATURE", "RAIN FORECAST", "WATER DURATION"};
    CapitalWord(k);
  }

  /** A word has no space, so it never starts with "NOT ". */
  lemma WordNotNegated(w: string)
    requires Word(w)
    ensures StripNot(w) == (false, w)
  {
    if |w| >= 4 {
      assert Upper(w)[3] == UpperChar(w[3]) != ' ';
      assert Upper(w)[..4][3] == Upper(w)[3];
    }
  }

  /** Text that starts with "NOT " loses it and the white space after it. */
  lemma StripLeadingNot(rest: string)
    requires |rest| > 0 && !Trimmable(rest[0]) && !Trimmable(rest[|rest| - 1])
    ensures StripNot("NOT " + rest) == (true, rest)
  {
    UpperAppend("NOT ", rest);
    assert Upper("NOT ") == "NOT ";
    assert ("NOT " + rest)[4..] == rest;
    TrimOfUntrimmable(rest);
  }

  /** A class as the rules write it after " is ": "[NOT ]<class>". */
  function ClassText(negated: bool, className: string): string {
    (if negated then "NOT " else "") + className
  }

  /** A condition as the rules write it: "[NOT ]<variable> is [NOT ]<class>". */
  function ConditionText(notBefore: bool, variable: string, notAfter: bool, className: string): string {
    (if notBefore then "NOT " else "") + variable + " is " + ClassText(notAfter, className)
  }

  /**
    Spelled like the vocabulary: the variable a capital phrase not starting with N, the class
    a capital word not starting with I.
  */
  predicate Spelled(variable: string, className: string) {
    Phrase(variable) && Capitals(variable) && variable[0] != 'N' &&
    Word(className) && Capitals(className) && className[0] != 'I'
  }

  /** The "NOT " in front of a written class is recognised and cut off; the class is a phrase. */
  lemma ClassTextNot(negated: bool, className: string)
    requires Word(className) && Capitals(className) && className[0] != 'I'
    ensures Phrase(ClassText(negated, className))
    ensures StripNot(Trim(ClassText(negated, className))) == (negated, className)
  {
    var k := className;
    var tail := ClassText(negated, k);
    assert tail[0] != ' ' && tail[|tail| - 1] == k[|k| - 1];
    TrimOfUntrimmable(tail);
    if negated {
      assert Word("NOT");
      JoinPhrase("NOT", k);
      assert "NOT" + " " + k == tail;
      StripLeadingNot(k);
    } else {
      assert tail == k;
      WordPhrase(k);
      WordNotNegated(k);
    }
  }

  /** The leading "NOT " of a written condition is recognised, and the rest left as it is. */
  lemma ConditionTextNot(notBefore: bool, variable: string, notAfter: bool, className: string)
    requires Spelled(variable, className)
    ensures StripNot(Trim(ConditionText(notBefore, variable, notAfter, className))) ==
              (notBefore, variable + " is " + ClassText(notAfter, className))
  {
    var tail := ClassText(notAfter, className);
    var body := variable + " is " + tail;
    var t := ConditionText(notBefore, variable, notAfter, className);
    assert tail[|tail| - 1] == className[|className| - 1];
    assert body[0] == variable[0] && body[|body| - 1] == tail[|tail| - 1];
    TrimOfUntrimmable(body);
    if notBefore {
      assert t == "NOT " + body;
      TrimOfUntrimmable(t);
      StripLeadingNot(body);
    } else {
      assert t == body;
      assert Upper(t)[0] == UpperChar(t[0]) == variable[0] != 'N';
      if |t| >= 4 { assert Upper(t)[..4][0] == Upper(t)[0]; }
    }
  }

  /**
    Parsing a written condition comes down to validating its variable and class; a NOT in
    front, after " is ", or both, negates it.
  */
  lemma ParseConditionText(notBefore: bool, variable: string, notAfter: bool, className: string)
    requires Spelled(variable, className)
    ensures ParseCondition(ConditionText(notBefore, variable, notAfter, className)) ==
              match ValidateCondition(variable, className)
              case Some(e) => Reject(e)
              case None => Accept(Condition(variable, className, notBefore || notAfter))
  {
    ConditionTextNot(notBefore, variable, notAfter, className);
    ClassTextNot(notAfter, className);
    SplitIsPhrase(variable, ClassText(notAfter, className));
    TrimOfUntrimmable(variable);
  }

  /** A condition over the vocabulary, spelled in capitals. */
  predicate Canonical(c: Condition) {
    c.variable in ValidClasses && c.className in ValidClasses[c.variable]
  }

  /**
    Writing a canonical condition with its NOT in front, after " is ", or in both places, and
    parsing it gives the condition back: either NOT negates it, and two do not cancel out.
  */
  lemma ConditionRoundTrip(notBefore: bool, notAfter: bool, c: Condition)
    requires Canonical(c) && c.negated == (notBefore || notAfter)
    ensures ParseCondition(ConditionText(notBefore, c.variable, notAfter, c.className)) == Accept(c)
  {
    VariableSpelling(c.variable);
    ClassSpelling(c.variable, c.className);
    ParseConditionText(notBefore, c.variable, notAfter, c.className);
    UpperOfCapitals(c.variable);
    UpperOfCapitals(c.className);
  }

  /** An output as the rules write it: "Water Duration is [NOT ]<class>". */
  function OutputText(o: Output): string {
    o.variable + " is " + ClassText(o.negated, o.className)
  }

  lemma OutputVariableSpelling()
    ensures Phrase(OutputVariable) && Trim(OutputVariable) == OutputVariable
    ensures Upper(OutputVariable) == "WATER DURATION"
  {
    assert Word("Water") && Word("Duration");
    JoinPhrase("Water", "Duration");
    assert "Water" + " " + "Duration" == OutputVariable;
    TrimOfUntrimmable(OutputVariable);
  }

  /** Parsing a written output comes down to validating its class. */
  lemma ParseOutputText(o: Output)
    requires o.variable == OutputVariable && Word(o.className) && Capitals(o.className) && o.className[0] != 'I'
    ensures ParseOutput(OutputText(o)) ==
              match ValidateClass(OutputVariable, o.className)
              case Some(e) => Reject(e)
              case None => Accept(o)
  {
    OutputVariableSpelling();
    ClassTextNot(o.negated, o.className);
    SplitIsPhrase(OutputVariable, ClassText(o.negated, o.className));
  }

  /** Writing an output over the vocabulary and parsing it gives the output back. */
  lemma OutputRoundTrip(o: Output)
    requires o.variable == OutputVariable && o.className in ValidClasses["WATER DURATION"]
    ensures ParseOutput(OutputText(o)) == Accept(o)
  {
    ClassSpelling("WATER DURATION", o.className);
    ParseOutputText(o);
    OutputVariableSpelling();
    UpperOfCapitals(o.className);
  }

  // ---------------------------------------------------------------- parse, step by step

  /** The accepted texts so far, in front of what the rest of the input gives. */
  function Prefixed<T>(done: seq<T>, rest: Parsed<seq<T>>): Parsed<seq<T>> {
    match rest
    case Reject(e) => Reject(e)
    case Accept(values) => Accept(done + values)
  }

  lemma PrefixedNothing<T>(rest: Parsed<seq<T>>)
    ensures Prefixed([], rest) == rest
  {
    if rest.Accept? {
      assert [] + rest.value == rest.value;
    }
  }

  /** The two loops that tag the AND positions and then the OR positions. */
  method CombineOperators(ands: seq<nat>, ors: seq<nat>) returns (all: seq<OperatorInfo>)
    ensures all == Tagged(ands, AND) + Tagged(ors, OR)
  {
    all := [];
    for i := 0 to |ands|
      invariant all == Tagged(ands[..i], AND)
    {
      all := all + [OperatorInfo(ands[i], AND)];
    }
    assert ands[..|ands|] == ands;
    for i := 0 to |ors|
      invariant all == Tagged(ands, AND) + Tagged(ors[..i], OR)
    {
      all := all + [OperatorInfo(ors[i], OR)];
    }
    assert ors[..|ors|] == ors;
  }

  /** The loop that lists the operators in order. */
  method OperatorSequence(ops: seq<OperatorInfo>) returns (names: seq<BoolOp>)
    ensures names == OperatorNames(ops)
  {
    names := [];
    for i := 0 to |ops|
      invariant names == OperatorNames(ops[..i])
    {
      names := names + [ops[i].operator];
    }
    assert ops[..|ops|] == ops;
  }

  /** One turn of the splitting loop. */
  lemma PiecesStep(ifPart: string, ops: seq<OperatorInfo>, i: nat, lastEnd: nat, texts: seq<string>)
    requires i < |ops|
    ensures var p := ops[i].position;
            Prefixed(texts, Pieces(ifPart, ops[i..], lastEnd)) ==
              if lastEnd > p || p > |ifPart| then Reject(SubstringOutOfBounds(lastEnd, p))
              else Prefixed(texts + [Trim(ifPart[lastEnd..p])], Pieces(ifPart, ops[i + 1..], p + Width(ops[i].operator)))
  {
    var p := ops[i].position;
    assert ops[i..][0] == ops[i] && ops[i..][1..] == ops[i + 1..];
    if lastEnd <= p <= |ifPart| {
      var rest := Pieces(ifPart, ops[i + 1..], p + Width(ops[i].operator));
      if rest.Accept? {
        var text := Trim(ifPart[lastEnd..p]);
        assert texts + ([text] + rest.value) == (texts + [text]) + rest.value;
      }
    }
  }

  /** The loop that cuts the IF part at each operator, then the text after the last. */
  method SplitAtOperators(ifPart: string, ops: seq<OperatorInfo>) returns (r: Parsed<seq<string>>)
    ensures r == SplitConditions(ifPart, ops)
  {
    if |ops| == 0 {
      return Accept([Trim(ifPart)]);
    }
    var texts: seq<string> := [];
    var lastEnd: nat := 0;
    var i := 0;
    assert ops[0..] == ops;
    PrefixedNothing(Pieces(ifPart, ops, 0));
    while i < |ops|
      invariant 0 <= i <= |ops|
      invariant Pieces(ifPart, ops, 0) == Prefixed(texts, Pieces(ifPart, ops[i..], lastEnd))
    {
      var p := ops[i].position;
      PiecesStep(ifPart, ops, i, lastEnd, texts);
      if lastEnd > p || p > |ifPart| {
        return Reject(SubstringOutOfBounds(lastEnd, p));
      }
      texts := texts + [Trim(ifPart[lastEnd..p])];
      lastEnd := p + Width(ops[i].operator);
      i := i + 1;
    }
    if lastEnd > |ifPart| {
      return Reject(SubstringOutOfBounds(lastEnd, |ifPart|));
    }
    r := Accept(texts + [Trim(ifPart[lastEnd..])]);
  }

  /** One turn of the condition loop. */
  lemma ConditionsStep(texts: seq<string>, i: nat, conditions: seq<Condition>)
    requires i < |texts|
    ensures Prefixed(conditions, ConditionsOf(texts[i..])) ==
              match ParseCondition(texts[i])
              case Reject(e) => Reject(e)
              case Accept(c) => Prefixed(conditions + [c], ConditionsOf(texts[i + 1..]))
  {
    assert texts[i..][0] == texts[i] && texts[i..][1..] == texts[i + 1..];
    if ParseCondition(texts[i]).Accept? {
      var c := ParseCondition(texts[i]).value;
      var rest := ConditionsOf(texts[i + 1..]);
      if rest.Accept? {
        assert conditions + ([c] + rest.value) == (conditions + [c]) + rest.value;
      }
    }
  }

  /** The loop that parses the condition texts in order and stops at the first that fails. */
  method ParseConditions(texts: seq<string>) returns (r: Parsed<seq<Condition>>)
    ensures r == ConditionsOf(texts)
  {
    var conditions: seq<Condition> := [];
    var i := 0;
    assert texts[0..] == texts;
    PrefixedNothing(ConditionsOf(texts));
    while i < |texts|
      invariant 0 <= i <= |texts|
      invariant ConditionsOf(texts) == Prefixed(conditions, ConditionsOf(texts[i..]))
    {
      ConditionsStep(texts, i, conditions);
      match ParseCondition(texts[i])
      case Reject(e) =>
        return Reject(e);
      case Accept(c) =>
        conditions := conditions + [c];
      i := i + 1;
    }
    assert texts[i..] == [];
    assert conditions + [] == conditions;
    r := Accept(conditions);
  }

  /** `parse`: the frame and the weight, then the rest of the rule. */
  method Parse(ruleText: Option<string>) returns (r: Parsed<RuleDocument>)
    ensures r == ParseRule(ruleText)
  {
    if ruleText.None? || IsBlank(ruleText.value) {
      return Reject(EmptyRule);
    }
    var text := Trim(ruleText.value);
    var thenIndex := IndexOf(Upper(text), " THEN ", 0);
    if thenIndex == -1 || !StartsWith(Upper(text), "IF ") {
      return Reject(BadFormat);
    }
    ThenAfterIf(Upper(text), thenIndex);
    var ifPart := Trim(text[2..thenIndex]);
    var thenPart := Trim(text[thenIndex + 6..]);
    assert Frame(ruleText) == Accept(Clauses(ifPart, thenPart));
    var weighted := ParseWeight(thenPart);
    if weighted.Reject? {
      return Reject(weighted.error);
    }
    r := ParseBody(ifPart, weighted.value.thenPart, weighted.value.weight);
  }

  /** The WEIGHT clause of `parse`: the cut, `Double.parseDouble` and the range check. */
  method ParseWeight(thenPart: string) returns (r: Parsed<Weighted>)
    ensures r == SplitWeight(thenPart)
  {
    var rest := thenPart;
    var weight := Finite(1.0);
    var weightIndex := IndexOf(Upper(thenPart), " WEIGHT ", 0);
    if weightIndex != -1 {
      var weightText := Trim(thenPart[weightIndex + 8..]);
      rest := Trim(thenPart[..weightIndex]);
      match ParseDouble(weightText)
      case None =>
        return Reject(InvalidWeight(weightText));
      case Some(w) =>
        if Below(w, 0.0) || Above(w, 1.0) {
          return Reject(WeightOutOfRange);
        }
        weight := w;
    }
    r := Accept(Weighted(rest, weight));
  }

  /** The rest of `parse`, with its search, combining, splitting and parsing loops. */
  method ParseBody(ifPart: string, thenPart: string, weight: Number) returns (r: Parsed<RuleDocument>)
    ensures r == ParseClauses(ifPart, Weighted(thenPart, weight))
  {
    var upperIf := Upper(ifPart);
    var ands := FindAll(upperIf, " AND ");
    var ors := FindAll(upperIf, " OR ");
    var all := CombineOperators(ands, ors);
    var ops := SortByPosition(all);

    var single: Option<BoolOp> := None;
    var mixed := false;
    var sequence: seq<BoolOp> := [];
    if |ops| == 0 {
      single := Some(AND);
    } else {
      sequence := OperatorSequence(ops);
      mixed := Mixed(sequence);
      if !mixed {
        single := Some(sequence[0]);
      }
    }
    assert (single, if mixed then Some(sequence) else None) == Kinds(OperatorNames(ops)) by {
      if mixed { assert single.None?; }
    }

    var texts := SplitAtOperators(ifPart, ops);
    if texts.Reject? {
      return Reject(texts.error);
    }
    var conditions := ParseConditions(texts.value);
    if conditions.Reject? {
      return Reject(conditions.error);
    }
    var output := ParseOutput(thenPart);
    if output.Reject? {
      return Reject(output.error);
    }
    if mixed {
      r := Accept(RuleDocument(None, None, Some(sequence), conditions.value, output.value, weight, true));
    } else {
      r := Accept(RuleDocument(None, single, None, conditions.value, output.value, weight, true));
    }
  }
}
