// The inner-loop scorers of the weather chatbot's evaluation
// (weather-chatbot/eval/library/inner_loop/mlflow_helpers.py): an exact match
// that treats any two falsy values as equal, and a membership test that
// compares strings after stripping surrounding whitespace. Values are the
// decoded JSON values of the test case and the component's output; equality
// is structural (Python's `1 == True` is not modelled).
module Scorers {
  import opened Tables

  /** Python's `bool(x)`: None, False, 0, "" and empty containers are falsy. */
  predicate Truthy(v: Value)
  {
    match v
    case Null => false
    case Bool(b) => b
    case Int(i) => i != 0
    case Str(s) => s != ""
    case List(items) => items != []
    case Dict(fields) => fields != map[]
  }

  /** exact_match_score. */
  function ExactMatchScore(expected: Value, result: Value): (r: int)
    ensures r == 0 || r == 1
    ensures r == 1 <==> (!Truthy(expected) && !Truthy(result)) || expected == result
  {
    if !Truthy(result) && !Truthy(expected) then 1
    else if result == expected then 1
    else 0
  }

  /** The score does not depend on which side is the expected output. */
  lemma ExactMatchSymmetric(a: Value, b: Value)
    ensures ExactMatchScore(a, b) == ExactMatchScore(b, a)
  {
  }

  /** Falsy values match across types: None against "" and 0 against []. */
  lemma FalsyValuesMatch()
    ensures ExactMatchScore(Null, Str("")) == 1 && ExactMatchScore(Int(0), List([])) == 1
    ensures ExactMatchScore(Str("a"), Str("a ")) == 0
  {
  }

  /** Every item is a string. */
  predicate AllStrings(items: seq<Value>)
  {
    forall i :: 0 <= i < |items| ==> items[i].Str?
  }

  /** Some item is a string that, stripped, equals `target`. */
  predicate HasStripped(items: seq<Value>, target: string)
  {
    exists i :: 0 <= i < |items| && items[i].Str? && Strip(items[i].s) == target
  }

  /** Some item is not a string. */
  predicate HasNonString(items: seq<Value>)
  {
    exists i :: 0 <= i < |items| && !items[i].Str?
  }

  lemma AllStringsHeadTail(items: seq<Value>)
    requires items != []
    ensures AllStrings(items) <==> items[0].Str? && AllStrings(items[1..])
  {
    var tail := items[1..];
    if items[0].Str? && AllStrings(tail) {
      forall i | 0 <= i < |items|
        ensures items[i].Str?
      {
        if i > 0 { assert items[i] == tail[i - 1]; }
      }
    }
    if AllStrings(items) {
      forall j | 0 <= j < |tail|
        ensures tail[j].Str?
      {
        assert tail[j] == items[j + 1];
      }
    }
  }

  lemma HasStrippedHeadTail(items: seq<Value>, target: string)
    requires items != []
    ensures HasStripped(items, target) <==>
      (items[0].Str? && Strip(items[0].s) == target) || HasStripped(items[1..], target)
  {
    var tail := items[1..];
    if HasStripped(items, target) {
      var i :| 0 <= i < |items| && items[i].Str? && Strip(items[i].s) == target;
      if i > 0 { assert tail[i - 1] == items[i]; }
    }
    if HasStripped(tail, target) {
      var j :| 0 <= j < |tail| && tail[j].Str? && Strip(tail[j].s) == target;
      assert items[j + 1] == tail[j];
    }
  }

  /** The three predicates on a non-empty sequence, from its head and tail. */
  lemma HeadTail(items: seq<Value>, target: string)
    requires items != []
    ensures AllStrings(items) <==> items[0].Str? && AllStrings(items[1..])
    ensures HasStripped(items, target) <==>
      (items[0].Str? && Strip(items[0].s) == target) || HasStripped(items[1..], target)
    ensures HasNonString(items[1..]) ==> HasNonString(items)
  {
    AllStringsHeadTail(items);
    HasStrippedHeadTail(items, target);
    var tail := items[1..];
    if HasNonString(tail) {
      var j :| 0 <= j < |tail| && !tail[j].Str?;
      assert items[j + 1] == tail[j];
    }
  }

  /** `any(item.strip() == target for item in items)`, evaluated left to
      right: a non-string item reached before a match raises AttributeError. */
  function AnyStripEqual(items: seq<Value>, target: string): (r: Result<bool>)
    ensures r == Ok(true) ==> HasStripped(items, target)
    ensures r.Err? ==> HasNonString(items)
    ensures AllStrings(items) ==> r == Ok(HasStripped(items, target))
    decreases |items|
  {
    if items == [] then Ok(false)
    else
      HeadTail(items, target);
      if !items[0].Str? then Err("AttributeError: item has no attribute 'strip'")
      else if Strip(items[0].s) == target then Ok(true)
      else AnyStripEqual(items[1..], target)
  }

  /** is_value_in_list. */
  function IsValueInList(expected: Value, result: Value): (r: Result<int>)
    ensures r.Ok? ==> r.value == 0 || r.value == 1
    ensures r.Err? ==> expected.List? && result.Str?
    ensures expected.Null? && result.Null? ==> r == Ok(1)
    ensures expected.Str? && result.Str? ==> (r == Ok(1) <==> Strip(expected.s) == Strip(result.s))
    ensures expected.List? && result.Str? && AllStrings(expected.items) ==>
      (r == Ok(1) <==> HasStripped(expected.items, Strip(result.s)))
    ensures (!(expected.Null? && result.Null?) && !(expected.Str? && result.Str?) &&
             !(expected.List? && result.Str?)) ==> r == Ok(0)
  {
    if expected.Null? && result.Null? then Ok(1)
    else if expected.Str? && result.Str? && Strip(expected.s) == Strip(result.s) then Ok(1)
    else if expected.List? && result.Str? then
      var found :- AnyStripEqual(expected.items, Strip(result.s));
      Ok(if found then 1 else 0)
    else Ok(0)
  }

  /** A one-element list of strings scores as that string does. */
  lemma SingletonListAgrees(x: string, result: Value)
    ensures IsValueInList(List([Str(x)]), result) == IsValueInList(Str(x), result)
  {
    if result.Str? {
      assert AnyStripEqual([Str(x)], Strip(result.s)) == Ok(Strip(x) == Strip(result.s));
    }
  }

  /** On a list of strings the score is 1 exactly when some element matches. */
  lemma StringsScore(items: seq<Value>, result: string)
    requires AllStrings(items)
    ensures IsValueInList(List(items), Str(result)) == Ok(if HasStripped(items, Strip(result)) then 1 else 0)
  {
  }

  lemma HasStrippedPermutation(a: seq<Value>, b: seq<Value>, t: string)
    requires multiset(a) == multiset(b)
    ensures HasStripped(a, t) ==> HasStripped(b, t)
    ensures AllStrings(a) ==> AllStrings(b)
  {
    if HasStripped(a, t) {
      var i :| 0 <= i < |a| && a[i].Str? && Strip(a[i].s) == t;
      assert a[i] in multiset(b);
      var j :| 0 <= j < |b| && b[j] == a[i];
    }
    if AllStrings(a) {
      forall j | 0 <= j < |b|
        ensures b[j].Str?
      {
        assert b[j] in multiset(a);
      }
    }
  }

  /** Lists holding the same strings, in any order and with the same
      multiplicities, score alike. */
  lemma ListOrderIrrelevant(a: seq<Value>, b: seq<Value>, result: string)
    requires AllStrings(a)
    requires multiset(a) == multiset(b)
    ensures IsValueInList(List(a), Str(result)) == IsValueInList(List(b), Str(result))
  {
    HasStrippedPermutation(a, b, Strip(result));
    HasStrippedPermutation(b, a, Strip(result));
    StringsScore(a, result);
    StringsScore(b, result);
  }
}
