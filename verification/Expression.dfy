/**
 The condition engine: services/api/src/policy/expression.ts.
 A condition is a JSON value, well formed or not. An object keeps only the six keys that the
 engine looks up. A node that is neither an object nor an array makes the engine throw.
 */
module Expression {
  import opened Common

  datatype Json =
    | JUndefined
    | JNull
    | JBool(b: bool)
    | JNum(n: real)
    | JStr(s: string)
    | JArr(items: seq<Json>)
    | JObj(all: Option<Json>, any: Option<Json>, not: Option<Json>,
           field: Option<Json>, operator: Option<Json>, value: Option<Json>)

  type Fields = map<string, Json>

  /** JavaScript's conversions, where the two operands differ in type or are not strings. */
  datatype Coercions = Coercions(
    looseEqual: (Json, Json) -> bool,
    less: (Json, Json) -> bool,
    lessOrEqual: (Json, Json) -> bool,
    text: Json -> string)

  function LooseEqual(x: Json, y: Json, js: Coercions): bool {
    match (x, y)
    case (JBool(a), JBool(b)) => a == b
    case (JNum(a), JNum(b)) => a == b
    case (JStr(a), JStr(b)) => a == b
    case _ => js.looseEqual(x, y)
  }

  function Less(x: Json, y: Json, js: Coercions): bool {
    match (x, y)
    case (JNum(a), JNum(b)) => a < b
    case _ => js.less(x, y)
  }

  function LessOrEqual(x: Json, y: Json, js: Coercions): bool {
    match (x, y)
    case (JNum(a), JNum(b)) => a <= b
    case _ => js.lessOrEqual(x, y)
  }

  /** Array.prototype.includes: primitives by value; two arrays or objects are never the same one. */
  function Includes(items: seq<Json>, x: Json): bool {
    !x.JArr? && !x.JObj? && x in items
  }

  function EndsWith(s: string, part: string): bool {
    |part| <= |s| && s[|s| - |part|..] == part
  }

  function Text(x: Json, js: Coercions): string {
    match x
    case JStr(s) => s
    case _ => js.text(x)
  }

  function EvaluateLeaf(fieldValue: Json, operator: Json, value: Json, js: Coercions): bool {
    var absent := fieldValue.JNull? || fieldValue.JUndefined?;
    if operator == JStr("exists") then !absent
    else if operator == JStr("not_exists") then absent
    else if operator == JStr("is_true") then fieldValue == JBool(true)
    else if operator == JStr("is_false") then fieldValue == JBool(false)
    else if absent then false
    else if operator == JStr("eq") then LooseEqual(fieldValue, value, js)
    else if operator == JStr("ne") then !LooseEqual(fieldValue, value, js)
    else if operator == JStr("gt") then Less(value, fieldValue, js)
    else if operator == JStr("gte") then LessOrEqual(value, fieldValue, js)
    else if operator == JStr("lt") then Less(fieldValue, value, js)
    else if operator == JStr("lte") then LessOrEqual(fieldValue, value, js)
    else if operator == JStr("in") then value.JArr? && Includes(value.items, fieldValue)
    else if operator == JStr("not_in") then value.JArr? && !Includes(value.items, fieldValue)
    else if operator == JStr("contains") then fieldValue.JStr? && Contains(fieldValue.s, Text(value, js))
    else if operator == JStr("not_contains") then fieldValue.JStr? && !Contains(fieldValue.s, Text(value, js))
    else if operator == JStr("starts_with") then fieldValue.JStr? && Text(value, js) <= fieldValue.s
    else if operator == JStr("ends_with") then fieldValue.JStr? && EndsWith(fieldValue.s, Text(value, js))
    else false
  }

  /** fields[field] ?? null */
  function Lookup(fields: Fields, field: Json, js: Coercions): Json {
    var key := Text(field, js);
    if key in fields && fields[key] != JUndefined then fields[key] else JNull
  }

  /** The node kinds, in the order in which the engine tries them. */
  predicate IsAll(c: Json) { c.JObj? && c.all.Some? && c.all.value.JArr? }
  predicate IsAny(c: Json) { c.JObj? && c.any.Some? && c.any.value.JArr? }
  predicate IsNot(c: Json) { c.JObj? && c.not.Some? }
  predicate IsLeaf(c: Json) { c.JObj? && c.field.Some? && c.operator.Some? }

  /** The in operator throws on a value that is not an object. */
  predicate IsNode(c: Json) { c.JObj? || c.JArr? }

  function ValueOf(c: Json): Json
    requires c.JObj?
  {
    if c.value.Some? then c.value.value else JUndefined
  }

  datatype Evaluation = Result(b: bool) | Throws

  /** _evaluate: stops at the first child that settles a group. */
  function Evaluate(c: Json, fields: Fields, js: Coercions): Evaluation
    decreases c, 0
  {
    if !IsNode(c) then Throws
    else if IsAll(c) then Every(c.all.value.items, fields, js)
    else if IsAny(c) then AnyMatches(c.any.value.items, fields, js)
    else if IsNot(c) then
      match Evaluate(c.not.value, fields, js)
      case Throws => Throws
      case Result(b) => Result(!b)
    else if IsLeaf(c) then
      Result(EvaluateLeaf(Lookup(fields, c.field.value, js), c.operator.value, ValueOf(c), js))
    else Result(false)
  }

  function Every(items: seq<Json>, fields: Fields, js: Coercions): Evaluation
    decreases items, 0
  {
    if items == [] then Result(true)
    else
      match Evaluate(items[0], fields, js)
      case Throws => Throws
      case Result(b) => if b then Every(items[1..], fields, js) else Result(false)
  }

  function AnyMatches(items: seq<Json>, fields: Fields, js: Coercions): Evaluation
    decreases items, 0
  {
    if items == [] then Result(false)
    else
      match Evaluate(items[0], fields, js)
      case Throws => Throws
      case Result(b) => if b then Result(true) else AnyMatches(items[1..], fields, js)
  }

  datatype Trace =
    | LeafTrace(result: bool, field: Json, operator: Json, value: Json, resolved: Json)
    | EmptyTrace(result: bool)
    | AllTrace(result: bool, children: seq<Trace>)
    | AnyTrace(result: bool, children: seq<Trace>)
    | NotTrace(result: bool, child: Trace)

  /** _evaluateWithTrace: visits every child; None stands for the exception. */
  function EvaluateWithTrace(c: Json, fields: Fields, js: Coercions): Option<Trace>
    decreases c, 0
  {
    if !IsNode(c) then None
    else if IsAll(c) then
      match TraceAll(c.all.value.items, fields, js)
      case None => None
      case Some(children) => Some(AllTrace(forall t :: t in children ==> t.result, children))
    else if IsAny(c) then
      match TraceAll(c.any.value.items, fields, js)
      case None => None
      case Some(children) => Some(AnyTrace(exists t :: t in children && t.result, children))
    else if IsNot(c) then
      match EvaluateWithTrace(c.not.value, fields, js)
      case None => None
      case Some(inner) => Some(NotTrace(!inner.result, inner))
    else if IsLeaf(c) then
      var resolved := Lookup(fields, c.field.value, js);
      Some(LeafTrace(EvaluateLeaf(resolved, c.operator.value, ValueOf(c), js),
                     c.field.value, c.operator.value, ValueOf(c), resolved))
    else Some(EmptyTrace(false))
  }

  function TraceAll(items: seq<Json>, fields: Fields, js: Coercions): Option<seq<Trace>>
    decreases items, 0
  {
    if items == [] then Some([])
    else
      match EvaluateWithTrace(items[0], fields, js)
      case None => None
      case Some(t) =>
        match TraceAll(items[1..], fields, js)
        case None => None
        case Some(rest) => Some([t] + rest)
  }

  /** Every node that the full traversal reaches is an object or an array. */
  predicate WellShaped(c: Json)
    decreases c, 0
  {
    && IsNode(c)
    && (IsAll(c) ==> WellShapedItems(c.all.value.items))
    && (!IsAll(c) && IsAny(c) ==> WellShapedItems(c.any.value.items))
    && (!IsAll(c) && !IsAny(c) && IsNot(c) ==> WellShaped(c.not.value))
  }

  predicate WellShapedItems(items: seq<Json>)
    decreases items, 0
  {
    items == [] || (WellShaped(items[0]) && WellShapedItems(items[1..]))
  }

  /** On a well-shaped tree neither form throws and they agree; otherwise the traced form throws. */
  lemma {:induction false} TraceRefinesShortCircuit(c: Json, fields: Fields, js: Coercions)
    ensures EvaluateWithTrace(c, fields, js).Some? <==> WellShaped(c)
    ensures WellShaped(c) ==> Evaluate(c, fields, js) == Result(EvaluateWithTrace(c, fields, js).value.result)
    decreases c, 0
  {
    if IsAll(c) {
      TraceItems(c.all.value.items, fields, js);
    } else if IsAny(c) {
      TraceItems(c.any.value.items, fields, js);
    } else if IsNot(c) {
      TraceRefinesShortCircuit(c.not.value, fields, js);
    }
  }

  lemma {:induction false} TraceItems(items: seq<Json>, fields: Fields, js: Coercions)
    ensures TraceAll(items, fields, js).Some? <==> WellShapedItems(items)
    ensures WellShapedItems(items) ==>
            var children := TraceAll(items, fields, js).value;
            && Every(items, fields, js) == Result(forall t :: t in children ==> t.result)
            && AnyMatches(items, fields, js) == Result(exists t :: t in children && t.result)
    decreases items, 0
  {
    if items != [] {
      TraceRefinesShortCircuit(items[0], fields, js);
      TraceItems(items[1..], fields, js);
      if WellShapedItems(items) {
        var first := EvaluateWithTrace(items[0], fields, js).value;
        var rest := TraceAll(items[1..], fields, js).value;
        assert first in [first] + rest;
        assert forall t :: t in [first] + rest <==> t == first || t in rest;
      }
    }
  }

  /** Both forms return, and the same result, exactly on well-shaped trees. */
  lemma FormsAgreeIff(c: Json, fields: Fields, js: Coercions)
    ensures (EvaluateWithTrace(c, fields, js).Some?
             && Evaluate(c, fields, js) == Result(EvaluateWithTrace(c, fields, js).value.result))
            <==> WellShaped(c)
  {
    TraceRefinesShortCircuit(c, fields, js);
  }

  /**
   Short-circuit evaluation comes to a malformed node: the tree is one, or a group has a child that
   leads to one while every earlier child leaves the group open, or a negation does.
   */
  predicate ReachesMalformed(c: Json, fields: Fields, js: Coercions)
    decreases c, 0
  {
    if !IsNode(c) then true
    else if IsAll(c) then ReachedAmong(c.all.value.items, true, fields, js)
    else if IsAny(c) then ReachedAmong(c.any.value.items, false, fields, js)
    else if IsNot(c) then ReachesMalformed(c.not.value, fields, js)
    else false
  }

  /** open is the result of a child that leaves its group undecided. */
  predicate ReachedAmong(items: seq<Json>, open: bool, fields: Fields, js: Coercions)
    decreases items, 0
  {
    exists i ::
      && 0 <= i < |items| && ReachesMalformed(items[i], fields, js)
      && forall j :: 0 <= j < i ==> Evaluate(items[j], fields, js) == Result(open)
  }

  /** The first child leads there, or it leaves the group open and one of the others does. */
  lemma ReachedFirstOrRest(items: seq<Json>, open: bool, fields: Fields, js: Coercions)
    requires items != []
    ensures ReachedAmong(items, open, fields, js) <==>
            || ReachesMalformed(items[0], fields, js)
            || (Evaluate(items[0], fields, js) == Result(open) && ReachedAmong(items[1..], open, fields, js))
  {
    var rest := items[1..];
    if i :| 0 <= i < |items| && ReachesMalformed(items[i], fields, js)
            && forall j :: 0 <= j < i ==> Evaluate(items[j], fields, js) == Result(open) {
      if i > 0 {
        assert rest[i - 1] == items[i];
        assert forall j :: 0 <= j < i - 1 ==> rest[j] == items[j + 1];
        assert ReachedAmong(rest, open, fields, js);
      }
    }
    if Evaluate(items[0], fields, js) == Result(open) && ReachedAmong(rest, open, fields, js) {
      var k :| 0 <= k < |rest| && ReachesMalformed(rest[k], fields, js)
               && forall j :: 0 <= j < k ==> Evaluate(rest[j], fields, js) == Result(open);
      assert items[k + 1] == rest[k];
      forall j | 0 <= j < k + 1 ensures Evaluate(items[j], fields, js) == Result(open) {
        assert j > 0 ==> items[j] == rest[j - 1];
      }
    }
    if ReachesMalformed(items[0], fields, js) {
      assert ReachedAmong(items, open, fields, js);
    }
  }

  /** Short-circuit evaluation throws exactly if it comes to a malformed node. */
  lemma {:induction false} ThrowsIff(c: Json, fields: Fields, js: Coercions)
    ensures Evaluate(c, fields, js) == Throws <==> ReachesMalformed(c, fields, js)
    decreases c, 0
  {
    if IsAll(c) {
      EveryThrowsIff(c.all.value.items, fields, js);
    } else if IsAny(c) {
      AnyThrowsIff(c.any.value.items, fields, js);
    } else if IsNot(c) {
      ThrowsIff(c.not.value, fields, js);
    }
  }

  lemma {:induction false} EveryThrowsIff(items: seq<Json>, fields: Fields, js: Coercions)
    ensures Every(items, fields, js) == Throws <==> ReachedAmong(items, true, fields, js)
    decreases items, 0
  {
    if items != [] {
      ReachedFirstOrRest(items, true, fields, js);
      ThrowsIff(items[0], fields, js);
      EveryThrowsIff(items[1..], fields, js);
    }
  }

  lemma {:induction false} AnyThrowsIff(items: seq<Json>, fields: Fields, js: Coercions)
    ensures AnyMatches(items, fields, js) == Throws <==> ReachedAmong(items, false, fields, js)
    decreases items, 0
  {
    if items != [] {
      ReachedFirstOrRest(items, false, fields, js);
      ThrowsIff(items[0], fields, js);
      AnyThrowsIff(items[1..], fields, js);
    }
  }

  /** The same outcome, a result or an exception, comes out exactly on well-shaped trees and those. */
  lemma OutcomesAgreeIff(c: Json, fields: Fields, js: Coercions)
    ensures (match EvaluateWithTrace(c, fields, js)
             case Some(t) => Evaluate(c, fields, js) == Result(t.result)
             case None => Evaluate(c, fields, js) == Throws)
            <==> WellShaped(c) || ReachesMalformed(c, fields, js)
  {
    TraceRefinesShortCircuit(c, fields, js);
    ThrowsIff(c, fields, js);
  }

  function Group(all: Option<Json>, any: Option<Json>): Json { JObj(all, any, None, None, None, None) }

  /** Short-circuiting hides a malformed sibling that tracing trips over. */
  lemma ShortCircuitHidesMalformedSibling(fields: Fields, js: Coercions, bad: Json)
    requires !IsNode(bad)
    ensures var c := Group(Some(JArr([Group(None, Some(JArr([]))), bad])), None);
            Evaluate(c, fields, js) == Result(false) && EvaluateWithTrace(c, fields, js) == None
  {
    var never := Group(None, Some(JArr([])));
    var items := [never, bad];
    assert Evaluate(never, fields, js) == Result(false);
    assert Every(items, fields, js) == Result(false);
    assert items[1..] == [bad];
    assert TraceAll([bad], fields, js) == None;
    assert TraceAll(items, fields, js) == None;
  }

  /** The trace has one node for each node of the tree, and each group's result is its children's. */
  predicate Mirrors(c: Json, t: Trace, fields: Fields, js: Coercions)
    decreases c, 0
  {
    if IsAll(c) then t.AllTrace? && MirrorsItems(c.all.value.items, t.children, fields, js)
      && (t.result <==> forall i :: 0 <= i < |t.children| ==> t.children[i].result)
    else if IsAny(c) then t.AnyTrace? && MirrorsItems(c.any.value.items, t.children, fields, js)
      && (t.result <==> exists i :: 0 <= i < |t.children| && t.children[i].result)
    else if IsNot(c) then t.NotTrace? && Mirrors(c.not.value, t.child, fields, js) && t.result == !t.child.result
    else if IsLeaf(c) then t.LeafTrace?
      && t.field == c.field.value && t.operator == c.operator.value && t.value == ValueOf(c)
      && t.resolved == Lookup(fields, c.field.value, js)
      && t.result == EvaluateLeaf(t.resolved, t.operator, t.value, js)
    else t == EmptyTrace(false)
  }

  predicate MirrorsItems(items: seq<Json>, ts: seq<Trace>, fields: Fields, js: Coercions)
    decreases items, 0
  {
    |items| == |ts| && (items == []
                        || (Mirrors(items[0], ts[0], fields, js) && MirrorsItems(items[1..], ts[1..], fields, js)))
  }

  lemma {:induction false} TraceMirrorsTree(c: Json, fields: Fields, js: Coercions)
    requires WellShaped(c)
    ensures EvaluateWithTrace(c, fields, js).Some?
    ensures Mirrors(c, EvaluateWithTrace(c, fields, js).value, fields, js)
    decreases c, 0
  {
    TraceRefinesShortCircuit(c, fields, js);
    if IsAll(c) {
      TraceMirrorsItems(c.all.value.items, fields, js);
    } else if IsAny(c) {
      TraceMirrorsItems(c.any.value.items, fields, js);
    } else if IsNot(c) {
      TraceMirrorsTree(c.not.value, fields, js);
    }
  }

  lemma {:induction false} TraceMirrorsItems(items: seq<Json>, fields: Fields, js: Coercions)
    requires WellShapedItems(items)
    ensures TraceAll(items, fields, js).Some?
    ensures MirrorsItems(items, TraceAll(items, fields, js).value, fields, js)
    decreases items, 0
  {
    if items != [] {
      TraceMirrorsTree(items[0], fields, js);
      TraceMirrorsItems(items[1..], fields, js);
      var first := EvaluateWithTrace(items[0], fields, js).value;
      var rest := TraceAll(items[1..], fields, js).value;
      assert ([first] + rest)[1..] == rest;
    }
  }

  /** The field names that leaves of the tree look up. */
  function FieldsOf(c: Json, js: Coercions): set<string>
    decreases c, 0
  {
    if IsAll(c) then FieldsOfItems(c.all.value.items, js)
    else if IsAny(c) then FieldsOfItems(c.any.value.items, js)
    else if IsNot(c) then FieldsOf(c.not.value, js)
    else if IsLeaf(c) then {Text(c.field.value, js)}
    else {}
  }

  function FieldsOfItems(items: seq<Json>, js: Coercions): set<string>
    decreases items, 0
  {
    if items == [] then {} else FieldsOf(items[0], js) + FieldsOfItems(items[1..], js)
  }

  ghost predicate AgreeOn(names: set<string>, f: Fields, g: Fields) {
    forall name :: name in names ==> (name in f <==> name in g) && (name in f ==> f[name] == g[name])
  }

  /** Both forms depend only on the fields named in the tree. */
  lemma {:induction false} OnlyNamedFieldsMatter(c: Json, f: Fields, g: Fields, js: Coercions)
    requires AgreeOn(FieldsOf(c, js), f, g)
    ensures Evaluate(c, f, js) == Evaluate(c, g, js)
    ensures EvaluateWithTrace(c, f, js) == EvaluateWithTrace(c, g, js)
    decreases c, 0
  {
    if IsAll(c) {
      OnlyNamedFieldsMatterItems(c.all.value.items, f, g, js);
    } else if IsAny(c) {
      OnlyNamedFieldsMatterItems(c.any.value.items, f, g, js);
    } else if IsNot(c) {
      OnlyNamedFieldsMatter(c.not.value, f, g, js);
    } else if IsLeaf(c) {
      assert Text(c.field.value, js) in FieldsOf(c, js);
    }
  }

  lemma {:induction false} OnlyNamedFieldsMatterItems(items: seq<Json>, f: Fields, g: Fields, js: Coercions)
    requires AgreeOn(FieldsOfItems(items, js), f, g)
    ensures Every(items, f, js) == Every(items, g, js)
    ensures AnyMatches(items, f, js) == AnyMatches(items, g, js)
    ensures TraceAll(items, f, js) == TraceAll(items, g, js)
    decreases items, 0
  {
    if items != [] {
      OnlyNamedFieldsMatter(items[0], f, g, js);
      OnlyNamedFieldsMatterItems(items[1..], f, g, js);
    }
  }
}
