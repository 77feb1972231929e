// Extracting evaluation test cases from logged chatbot conversations
// (weather-chatbot/eval/library/inner_loop/extract_test_cases.py): a log file
// holds JSON conversations separated by a marker; the conversations and
// message ids asked for become test cases keyed by component name, and the
// test cases are grouped by component. JSON text is decoded by the parameter
// `decode`; listing and writing files are not modelled.
module TestCases {
  import opened Tables

  const Wildcard: Value := Str("*")

  const ConversationSeparator: string := "~~~NEW_CONVERSATION~~~"

  /** A one-entry dictionary `{component_name: test_case}`, as a pair. */
  type Item = (string, Value)

  // ---------------------------------------------------------------------
  // consolidate_test_cases_by_component

  /** Component names and their test cases, in first-seen order. */
  type Groups = seq<(string, seq<Value>)>

  /** All entries of the dictionaries, in order. */
  function Flatten(cases: seq<seq<Item>>): seq<Item>
    decreases |cases|
  {
    if cases == [] then [] else Flatten(cases[..|cases| - 1]) + cases[|cases| - 1]
  }

  function KeysOf(items: seq<Item>): (ks: seq<string>)
    ensures |ks| == |items| && forall i :: 0 <= i < |items| ==> ks[i] == items[i].0
  {
    seq(|items|, i requires 0 <= i < |items| => items[i].0)
  }

  /** The values entered under `k`, in order. */
  function ValuesFor(items: seq<Item>, k: string): seq<Value>
    decreases |items|
  {
    if items == [] then []
    else
      var n := |items| - 1;
      ValuesFor(items[..n], k) + (if items[n].0 == k then [items[n].1] else [])
  }

  /** The grouping the function promises: one group per distinct component,
      in the order components first appear, holding that component's test
      cases in their order. */
  function Grouped(items: seq<Item>): Groups
  {
    var ks := Distinct(KeysOf(items));
    seq(|ks|, i requires 0 <= i < |ks| => (ks[i], ValuesFor(items, ks[i])))
  }

  /** The position of `k`'s group. */
  function FindGroup(groups: Groups, k: string): (r: Option<nat>)
    ensures r.Some? ==> r.value < |groups| && groups[r.value].0 == k
    ensures r.None? ==> forall i :: 0 <= i < |groups| ==> groups[i].0 != k
    decreases |groups|
  {
    if groups == [] then None
    else if groups[|groups| - 1].0 == k then Some(|groups| - 1)
    else FindGroup(groups[..|groups| - 1], k)
  }

  /** Deduplicating one more element: unchanged when it was seen, else
      appended. */
  lemma DistinctSnoc(s: seq<string>, x: string)
    ensures Distinct(s + [x]) == if x in s then Distinct(s) else Distinct(s) + [x]
  {
    assert (s + [x])[..|s|] == s;
  }

  lemma ValuesForSnoc(items: seq<Item>, k: string, v: Value, key: string)
    ensures ValuesFor(items + [(k, v)], key) == ValuesFor(items, key) + (if k == key then [v] else [])
  {
    assert (items + [(k, v)])[..|items|] == items;
  }

  /** Entering an item of a component already seen appends it to that
      component's group and changes nothing else. */
  lemma GroupedStepSeen(items: seq<Item>, k: string, v: Value, idx: nat)
    requires idx < |Grouped(items)| && Grouped(items)[idx].0 == k
    ensures Grouped(items + [(k, v)]) == Grouped(items)[idx := (k, Grouped(items)[idx].1 + [v])]
  {
    var items' := items + [(k, v)];
    var ks := KeysOf(items);
    assert KeysOf(items') == ks + [k];
    var d := Distinct(ks);
    assert d[idx] == k;
    DistinctSnoc(ks, k);
    assert Distinct(KeysOf(items')) == d;
    var g := Grouped(items);
    var lhs := Grouped(items');
    var rhs := g[idx := (k, g[idx].1 + [v])];
    assert |lhs| == |d| == |rhs|;
    forall i | 0 <= i < |d|
      ensures lhs[i] == rhs[i]
    {
      GroupSeenAt(items, k, v, idx, i);
    }
  }

  /** One group after entering an item of a component already seen. */
  lemma GroupSeenAt(items: seq<Item>, k: string, v: Value, idx: nat, i: nat)
    requires Distinct(KeysOf(items + [(k, v)])) == Distinct(KeysOf(items))
    requires idx < |Grouped(items)| && Grouped(items)[idx].0 == k && i < |Grouped(items)|
    ensures Grouped(items + [(k, v)])[i] ==
      if i == idx then (k, Grouped(items)[idx].1 + [v]) else Grouped(items)[i]
  {
    var d := Distinct(KeysOf(items));
    var items' := items + [(k, v)];
    ValuesForSnoc(items, k, v, d[i]);
    assert Grouped(items')[i] == (d[i], ValuesFor(items', d[i]));
    if i != idx {
      assert d[i] != k by { assert d[idx] == k; }
      assert ValuesFor(items, d[i]) + [] == ValuesFor(items, d[i]);
    }
  }

  /** Entering an item of a new component opens its group at the end. */
  lemma GroupedStepNew(items: seq<Item>, k: string, v: Value)
    requires forall i :: 0 <= i < |Grouped(items)| ==> Grouped(items)[i].0 != k
    ensures Grouped(items + [(k, v)]) == Grouped(items) + [(k, [v])]
  {
    var items' := items + [(k, v)];
    var ks := KeysOf(items);
    assert KeysOf(items') == ks + [k];
    var d := Distinct(ks);
    assert forall i :: 0 <= i < |d| ==> d[i] != k by {
      forall i | 0 <= i < |d| ensures d[i] != k {
        assert Grouped(items)[i].0 == d[i];
      }
    }
    assert k !in ks;
    DistinctSnoc(ks, k);
    var d' := Distinct(KeysOf(items'));
    assert d' == d + [k];
    var g := Grouped(items);
    var lhs := Grouped(items');
    var rhs := g + [(k, [v])];
    assert |lhs| == |d'| == |rhs|;
    forall i | 0 <= i < |d'|
      ensures lhs[i] == rhs[i]
    {
      ValuesForSnoc(items, k, v, d'[i]);
      assert lhs[i] == (d'[i], ValuesFor(items', d'[i]));
      if i == |d| {
        assert d'[i] == k && rhs[i] == (k, [v]);
        ValuesForAbsent(items, k);
        assert ValuesFor(items', k) == [] + [v] == [v];
      } else {
        assert rhs[i] == g[i];
        assert d'[i] == d[i] && d[i] != k;
        assert g[i] == (d[i], ValuesFor(items, d[i]));
        assert ValuesFor(items, d[i]) + [] == ValuesFor(items, d[i]);
      }
    }
  }

  /** A component never entered has no test cases. */
  lemma {:induction false} ValuesForAbsent(items: seq<Item>, k: string)
    requires k !in KeysOf(items)
    ensures ValuesFor(items, k) == []
    decreases |items|
  {
    if items != [] {
      var n := |items| - 1;
      assert KeysOf(items)[n] == items[n].0;
      assert KeysOf(items[..n]) == KeysOf(items)[..n];
      ValuesForAbsent(items[..n], k);
    }
  }

  /** consolidate_test_cases_by_component: the loop over the dictionaries
      and their entries, building each component's list. */
  method Consolidate(testCases: seq<seq<Item>>) returns (out: Groups)
    ensures out == Grouped(Flatten(testCases))
  {
    out := [];
    for i := 0 to |testCases|
      invariant out == Grouped(Flatten(testCases[..i]))
    {
      var testCase := testCases[i];
      assert testCases[..i + 1][..i] == testCases[..i];
      assert Flatten(testCases[..i]) + testCase[..0] == Flatten(testCases[..i]);
      for j := 0 to |testCase|
        invariant out == Grouped(Flatten(testCases[..i]) + testCase[..j])
      {
        var (k, v) := testCase[j];
        ghost var prefix := Flatten(testCases[..i]) + testCase[..j];
        assert testCase[..j + 1] == testCase[..j] + [(k, v)];
        assert Flatten(testCases[..i]) + testCase[..j + 1] == Flatten(testCases[..i]) + testCase[..j] + [(k, v)];
        var idx := FindGroup(out, k);
        if idx.None? {
          GroupedStepNew(prefix, k, v);
          out := out + [(k, [v])];
        } else {
          GroupedStepSeen(prefix, k, v, idx.value);
          out := out[idx.value := (k, out[idx.value].1 + [v])];
        }
      }
      assert testCase[..|testCase|] == testCase;
      assert Flatten(testCases[..i + 1]) == Flatten(testCases[..i]) + testCase;
    }
    assert testCases[..|testCases|] == testCases;
  }

  /** Every test case lands in its component's group, after those of the
      same component entered before it. */
  lemma {:induction false} ValuesForOrder(items: seq<Item>, i: nat)
    requires i < |items|
    ensures ValuesFor(items, items[i].0) == ValuesFor(items[..i], items[i].0) + [items[i].1] +
                                             ValuesFor(items[i + 1..], items[i].0)
    decreases |items|
  {
    var n := |items| - 1;
    var k := items[i].0;
    if i == n {
      assert items[..n] == items[..i];
      assert items[i + 1..] == [];
    } else {
      assert items[..n][i] == items[i];
      ValuesForOrder(items[..n], i);
      assert items[..n][..i] == items[..i];
      assert items[..n][i + 1..] == items[i + 1..n];
      assert items[i + 1..][..|items[i + 1..]| - 1] == items[i + 1..n];
      assert items[i + 1..][|items[i + 1..]| - 1] == items[n];
    }
  }

  // ---------------------------------------------------------------------
  // is_test_case_conversation and validate_test_cases_to_extract

  /** The conversations and message ids asked for, as decoded. */
  type Extraction = map<Value, Value>

  /** A wildcard key selects every conversation; otherwise the conversation
      needs an id that is a key. */
  function IsTestCaseConversation(extract: Extraction, conversation: map<string, Value>): (b: bool)
    ensures Wildcard in extract ==> b
    ensures Wildcard !in extract ==>
      (b <==> "conversation_id" in conversation && conversation["conversation_id"] in extract)
  {
    if Wildcard in extract then true
    else "conversation_id" in conversation && conversation["conversation_id"] in extract
  }

  predicate ValidIds(v: Value)
  {
    v == Wildcard || v.Int? || (v.List? && forall x :: x in v.items ==> x.Int?)
  }

  /** Keys are strings; values are the wildcard, an integer or a list of
      integers (a bool is not an integer here). */
  predicate ValidExtraction(extract: Extraction)
  {
    (forall k :: k in extract ==> k.Str?) && (forall k :: k in extract ==> ValidIds(extract[k]))
  }

  /** validate_test_cases_to_extract: ValueError for a key that is not a
      string, else for a value of the wrong shape; keys are checked first. */
  function ValidateTestCasesToExtract(extract: Extraction): (r: Option<string>)
    ensures r.None? <==> ValidExtraction(extract)
    ensures (exists k :: k in extract && !k.Str?) ==> r == Some(KeyMessage)
    ensures (forall k :: k in extract ==> k.Str?) && !ValidExtraction(extract) ==> r == Some(ValueMessage)
  {
    if exists k :: k in extract && !k.Str? then Some(KeyMessage)
    else if exists k :: k in extract && !ValidIds(extract[k]) then Some(ValueMessage)
    else None
  }

  /** The second half of the source's message is a plain string literal, not
      an f-string, so it holds the braces of `{key}` as written. */
  const KeyMessage: string := "All test case keys must be strings (wildcard * is also OK). Offending key: {key}"

  const ValueMessage: string :=
    "Message ids must be specified as integers, a list of integers, or the wildcard (*) character)."

  // ---------------------------------------------------------------------
  // create_test_cases

  /** `str(v)` for the ids that make up a test case id. Lists and dictionaries
      are abbreviated. */
  function PyStr(v: Value): string
  {
    match v
    case Null => "None"
    case Bool(b) => if b then "True" else "False"
    case Int(i) => IntToString(i)
    case Str(s) => s
    case List(_) => "[...]"
    case Dict(_) => "{...}"
  }

  /** `d[key]`, a KeyError when missing. */
  function Get(d: map<string, Value>, key: string): (r: Result<Value>)
    ensures r.Ok? <==> key in d
    ensures r.Ok? ==> r.value == d[key]
  {
    if key in d then Ok(d[key]) else Err("KeyError: " + key)
  }

  /** `msg[key]` on a message: a KeyError (or TypeError) unless it is a
      dictionary holding `key`. */
  function Field(msg: Value, key: string): (r: Result<Value>)
    ensures r.Ok? <==> msg.Dict? && key in msg.fields
    ensures r.Ok? ==> r.value == msg.fields[key]
  {
    if msg.Dict? then Get(msg.fields, key) else Err("TypeError: message is not a dictionary")
  }

  /** `conversation['conversation_history']`, which must be a list. */
  function History(conversation: map<string, Value>): (r: Result<seq<Value>>)
    ensures r.Ok? <==> "conversation_history" in conversation && conversation["conversation_history"].List?
  {
    var h :- Get(conversation, "conversation_history");
    if h.List? then Ok(h.items) else Err("TypeError: conversation_history is not a list")
  }

  /** `[msg['messageId'] for msg in history]`. */
  function AllMessageIds(history: seq<Value>): (r: Result<seq<Value>>)
    ensures r.Ok? <==> forall i :: 0 <= i < |history| ==> Field(history[i], "messageId").Ok?
    ensures r.Ok? ==>
      (|r.value| == |history| && forall i :: 0 <= i < |history| ==> Field(history[i], "messageId") == Ok(r.value[i]))
    decreases |history|
  {
    if history == [] then Ok([])
    else
      var n := |history| - 1;
      var ids :- AllMessageIds(history[..n]);
      var id :- Field(history[n], "messageId");
      assert forall i :: 0 <= i < n ==> history[..n][i] == history[i];
      Ok(ids + [id])
  }

  /** The inner loop from position `j` on: the first message whose
      messageId equals `id`; reading the messageId of an earlier message may
      raise. */
  function FirstMatchFrom(history: seq<Value>, j: nat, id: Value): (r: Result<Option<nat>>)
    requires j <= |history|
    ensures r.Ok? && r.value.Some? ==>
      j <= r.value.value < |history| && Field(history[r.value.value], "messageId") == Ok(id)
    ensures r.Ok? ==> forall k :: j <= k < |history| && (r.value.None? || k < r.value.value) ==>
      Field(history[k], "messageId").Ok? && Field(history[k], "messageId") != Ok(id)
    decreases |history| - j
  {
    if j == |history| then Ok(None)
    else
      var first :- Field(history[j], "messageId");
      if first == id then Ok(Some(j)) else FirstMatchFrom(history, j + 1, id)
  }

  function FirstMatch(history: seq<Value>, id: Value): Result<Option<nat>>
  {
    FirstMatchFrom(history, 0, id)
  }

  /** One test case: its id "{conversation_id}-{message_id}", the message's
      content as expected output, the customer profile, and the message's
      context when it has one. */
  function MakeTestCase(conversationId: Value, messageId: Value, msg: Value, conversation: map<string, Value>):
    (r: Result<Value>)
    ensures r.Ok? <==> Field(msg, "content").Ok? && "customer_profile" in conversation
    ensures r.Ok? ==> r.value.Dict? && msg.Dict?
    ensures r.Ok? ==> var f := r.value.fields;
      f.Keys == {"test_case_id", "expected_output", "customer_profile"} + (if "context" in msg.fields then {"context"} else {}) &&
      f["test_case_id"] == Str(PyStr(conversationId) + "-" + PyStr(messageId)) &&
      f["expected_output"] == msg.fields["content"] &&
      f["customer_profile"] == conversation["customer_profile"] &&
      ("context" in msg.fields ==> f["context"] == msg.fields["context"])
  {
    var content :- Field(msg, "content");
    var profile :- Get(conversation, "customer_profile");
    var testCase := map["test_case_id" := Str(PyStr(conversationId) + "-" + PyStr(messageId)),
                        "expected_output" := content, "customer_profile" := profile];
    Ok(Dict(if "context" in msg.fields then testCase["context" := msg.fields["context"]] else testCase))
  }

  /** The test cases for the ids, in order: each id yields at most one, from
      its first matching message. */
  function CasesFor(conversationId: Value, ids: seq<Value>, history: Result<seq<Value>>,
                    conversation: map<string, Value>, component: string): (r: Result<seq<Item>>)
    ensures r.Ok? ==> |r.value| <= |ids| && forall i :: 0 <= i < |r.value| ==> r.value[i].0 == component
    decreases |ids|
  {
    if ids == [] then Ok([])
    else
      var n := |ids| - 1;
      var earlier :- CasesFor(conversationId, ids[..n], history, conversation, component);
      var h :- history;
      var m :- FirstMatch(h, ids[n]);
      if m.None? then Ok(earlier)
      else
        var testCase :- MakeTestCase(conversationId, ids[n], h[m.value], conversation);
        Ok(earlier + [(component, testCase)])
  }

  /** The entry that applies to a conversation: the wildcard's when there is
      one, overriding the conversation's own. */
  function EntryFor(extract: Extraction, conversationId: Value): Option<Value>
  {
    var copy := if Wildcard in extract then extract[conversationId := extract[Wildcard]] else extract;
    if conversationId in copy then Some(copy[conversationId]) else None
  }

  /** The message ids of an entry: a wildcard expands to every messageId of
      the history; a list is taken as is and an integer as a singleton. */
  function MessageIds(entry: Value, conversation: map<string, Value>): (r: Result<seq<Value>>)
    requires ValidIds(entry)
    ensures entry.Int? ==> r == Ok([entry])
    ensures entry.List? ==> r == Ok(entry.items)
    ensures entry == Wildcard ==> (r.Ok? <==> History(conversation).Ok? && AllMessageIds(History(conversation).value).Ok?)
    ensures entry == Wildcard && r.Ok? ==> r == AllMessageIds(History(conversation).value)
  {
    if entry == Wildcard then
      var h :- History(conversation);
      AllMessageIds(h)
    else if entry.List? then Ok(entry.items)
    else Ok([entry])
  }

  /** create_test_cases, as a function of the conversation and the
      (validated) extraction. */
  function TestCasesOf(conversation: map<string, Value>, extract: Extraction, component: string): Result<seq<Item>>
    requires ValidExtraction(extract)
  {
    var conversationId :- Get(conversation, "conversation_id");
    var entry := EntryFor(extract, conversationId);
    if entry.None? then Err("KeyError: conversation_id")
    else
      var ids :- MessageIds(entry.value, conversation);
      CasesFor(conversationId, ids, History(conversation), conversation, component)
  }

  /** An error for a prefix of the ids is the error for all of them. */
  lemma {:induction false} CasesForPrefixErr(conversationId: Value, ids: seq<Value>, i: nat, history: Result<seq<Value>>,
                                             conversation: map<string, Value>, component: string)
    requires i <= |ids| && CasesFor(conversationId, ids[..i], history, conversation, component).Err?
    ensures CasesFor(conversationId, ids, history, conversation, component) ==
            CasesFor(conversationId, ids[..i], history, conversation, component)
    decreases |ids| - i
  {
    if i < |ids| {
      assert ids[..i + 1][..i] == ids[..i];
      CasesForPrefixErr(conversationId, ids, i + 1, history, conversation, component);
    } else {
      assert ids[..i] == ids;
    }
  }

  /** create_test_cases: the copy with the wildcard applied, the message
      ids, and the nested loops over ids and messages. The caller's
      extraction is a value and stays as it was. */
  method CreateTestCases(conversation: map<string, Value>, extract: Extraction, component: string)
    returns (r: Result<seq<Item>>)
    requires ValidExtraction(extract)
    ensures r == TestCasesOf(conversation, extract, component)
  {
    var conversationId :- Get(conversation, "conversation_id");
    var copy := extract;
    if Wildcard in copy {
      copy := copy[conversationId := copy[Wildcard]];
    }
    if conversationId !in copy {
      return Err("KeyError: conversation_id");
    }
    var messageIds :- MessageIds(copy[conversationId], conversation);
    r := BuildCases(conversationId, messageIds, conversation, component);
  }

  /** The outer loop of create_test_cases: one pass over the history per
      message id. */
  method BuildCases(conversationId: Value, messageIds: seq<Value>, conversation: map<string, Value>, component: string)
    returns (r: Result<seq<Item>>)
    ensures r == CasesFor(conversationId, messageIds, History(conversation), conversation, component)
  {
    var testCases: seq<Item> := [];
    for i := 0 to |messageIds|
      invariant CasesFor(conversationId, messageIds[..i], History(conversation), conversation, component) == Ok(testCases)
    {
      var messageId := messageIds[i];
      assert messageIds[..i + 1][..i] == messageIds[..i] && messageIds[..i + 1][i] == messageId;
      var h := History(conversation);
      if h.Err? {
        CasesForPrefixErr(conversationId, messageIds, i + 1, History(conversation), conversation, component);
        assert messageIds[..|messageIds|] == messageIds;
        return Err(h.error);
      }
      var history := h.value;
      var m := MatchMessage(history, messageId);
      if m.Err? {
        CasesForPrefixErr(conversationId, messageIds, i + 1, History(conversation), conversation, component);
        assert messageIds[..|messageIds|] == messageIds;
        return Err(m.error);
      }
      if m.value.Some? {
        var testCase := MakeTestCase(conversationId, messageId, history[m.value.value], conversation);
        if testCase.Err? {
          CasesForPrefixErr(conversationId, messageIds, i + 1, History(conversation), conversation, component);
          assert messageIds[..|messageIds|] == messageIds;
          return Err(testCase.error);
        }
        testCases := testCases + [(component, testCase.value)];
      }
    }
    assert messageIds[..|messageIds|] == messageIds;
    r := Ok(testCases);
  }

  /** The inner loop of create_test_cases: the messages in order until the
      first whose messageId equals `messageId`. */
  method MatchMessage(history: seq<Value>, messageId: Value) returns (r: Result<Option<nat>>)
    ensures r == FirstMatch(history, messageId)
  {
    var j := 0;
    while j < |history|
      invariant 0 <= j <= |history|
      invariant FirstMatch(history, messageId) == FirstMatchFrom(history, j, messageId)
    {
      var id := Field(history[j], "messageId");
      if id.Err? {
        return Err(id.error);
      }
      if messageId == id.value {
        return Ok(Some(j));
      }
      j := j + 1;
    }
    return Ok(None);
  }

  // ---------------------------------------------------------------------
  // Wildcards and scalar ids

  /** A wildcard key overrides the conversation's own entry: the result
      depends only on the wildcard's value. */
  lemma WildcardOverrides(conversation: map<string, Value>, e1: Extraction, e2: Extraction, component: string)
    requires ValidExtraction(e1) && ValidExtraction(e2)
    requires Wildcard in e1 && Wildcard in e2 && e1[Wildcard] == e2[Wildcard]
    ensures TestCasesOf(conversation, e1, component) == TestCasesOf(conversation, e2, component)
  {
  }

  /** A scalar id is a one-element list: at most one test case, from the
      first message carrying that id. */
  lemma ScalarIdSingleton(conversation: map<string, Value>, extract: Extraction, component: string, n: int)
    requires ValidExtraction(extract) && "conversation_id" in conversation
    requires EntryFor(extract, conversation["conversation_id"]) == Some(Int(n))
    ensures var r := TestCasesOf(conversation, extract, component);
      r == CasesFor(conversation["conversation_id"], [Int(n)], History(conversation), conversation, component) &&
      (r.Ok? ==> |r.value| <= 1)
  {
  }

  /** With distinct message ids, the first message carrying the id of
      message `i` is message `i`. */
  lemma FirstMatchDistinct(history: seq<Value>, ids: seq<Value>, i: nat)
    requires AllMessageIds(history) == Ok(ids) && NoDup(ids) && i < |history|
    ensures FirstMatch(history, ids[i]) == Ok(Some(i))
  {
    FirstMatchDistinctFrom(history, ids, 0, i);
  }

  lemma {:induction false} FirstMatchDistinctFrom(history: seq<Value>, ids: seq<Value>, j: nat, i: nat)
    requires AllMessageIds(history) == Ok(ids) && NoDup(ids) && j <= i < |history|
    ensures FirstMatchFrom(history, j, ids[i]) == Ok(Some(i))
    decreases i - j
  {
    assert Field(history[j], "messageId") == Ok(ids[j]);
    if j < i {
      assert ids[j] != ids[i];
      FirstMatchDistinctFrom(history, ids, j + 1, i);
    }
  }

  /** The test cases of the first `n` messages, each from its own message. */
  function MessageCases(conversationId: Value, history: seq<Value>, ids: seq<Value>, n: nat,
                        conversation: map<string, Value>, component: string): (r: seq<Item>)
    requires n <= |history| && n <= |ids| && "customer_profile" in conversation
    requires forall i :: 0 <= i < |history| ==> Field(history[i], "content").Ok?
  {
    seq(n, i requires 0 <= i < n => (component, MakeTestCase(conversationId, ids[i], history[i], conversation).value))
  }

  /** Every complete message of the history, for ids `ids[..n]`. */
  lemma {:induction false} CasesForAllMessages(conversationId: Value, history: seq<Value>, ids: seq<Value>, n: nat,
                                               conversation: map<string, Value>, component: string)
    requires AllMessageIds(history) == Ok(ids) && NoDup(ids) && n <= |history|
    requires "customer_profile" in conversation
    requires forall i :: 0 <= i < |history| ==> Field(history[i], "content").Ok?
    ensures CasesFor(conversationId, ids[..n], Ok(history), conversation, component) ==
            Ok(MessageCases(conversationId, history, ids, n, conversation, component))
    decreases n
  {
    if n == 0 {
      assert ids[..0] == [];
      assert MessageCases(conversationId, history, ids, 0, conversation, component) == [];
    } else {
      CasesForAllMessages(conversationId, history, ids, n - 1, conversation, component);
      MessageCasesSnoc(conversationId, history, ids, n, conversation, component);
      CasesForSnoc(conversationId, history, ids, n, conversation, component);
    }
  }

  lemma MessageCasesSnoc(conversationId: Value, history: seq<Value>, ids: seq<Value>, n: nat,
                         conversation: map<string, Value>, component: string)
    requires 0 < n <= |history| && n <= |ids| && "customer_profile" in conversation
    requires forall i :: 0 <= i < |history| ==> Field(history[i], "content").Ok?
    ensures MakeTestCase(conversationId, ids[n - 1], history[n - 1], conversation).Ok?
    ensures MessageCases(conversationId, history, ids, n, conversation, component) ==
            MessageCases(conversationId, history, ids, n - 1, conversation, component) +
            [(component, MakeTestCase(conversationId, ids[n - 1], history[n - 1], conversation).value)]
  {
    var before := MessageCases(conversationId, history, ids, n - 1, conversation, component);
    var after := MessageCases(conversationId, history, ids, n, conversation, component);
    assert after == before + [after[n - 1]];
  }

  /** One more id of a history with distinct ids adds the test case of its
      own message. */
  lemma CasesForSnoc(conversationId: Value, history: seq<Value>, ids: seq<Value>, n: nat,
                     conversation: map<string, Value>, component: string)
    requires AllMessageIds(history) == Ok(ids) && NoDup(ids) && 0 < n <= |history|
    ensures var earlier := CasesFor(conversationId, ids[..n - 1], Ok(history), conversation, component);
      var testCase := MakeTestCase(conversationId, ids[n - 1], history[n - 1], conversation);
      earlier.Ok? && testCase.Ok? ==>
        CasesFor(conversationId, ids[..n], Ok(history), conversation, component) ==
        Ok(earlier.value + [(component, testCase.value)])
  {
    FirstMatchDistinct(history, ids, n - 1);
    assert ids[..n][..n - 1] == ids[..n - 1] && ids[..n][n - 1] == ids[n - 1];
  }

  /** A wildcard value expands to every message: with distinct message ids
      and complete messages there is one test case per message, in order,
      whose expected output is that message's content. */
  lemma WildcardExpands(conversation: map<string, Value>, extract: Extraction, component: string)
    requires ValidExtraction(extract) && "conversation_id" in conversation
    requires EntryFor(extract, conversation["conversation_id"]) == Some(Wildcard)
    requires History(conversation).Ok? && AllMessageIds(History(conversation).value).Ok?
    requires NoDup(AllMessageIds(History(conversation).value).value)
    requires "customer_profile" in conversation
    requires forall m :: m in History(conversation).value ==> Field(m, "content").Ok?
    ensures var r, history := TestCasesOf(conversation, extract, component), History(conversation).value;
      r.Ok? && |r.value| == |history| &&
      forall i :: 0 <= i < |history| ==>
        (r.value[i].0 == component && Field(r.value[i].1, "expected_output") == Field(history[i], "content"))
  {
    var conversationId := conversation["conversation_id"];
    var history := History(conversation).value;
    var ids := AllMessageIds(history).value;
    WildcardCases(conversation, extract, component);
    forall i | 0 <= i < |history|
      ensures Field(history[i], "content").Ok?
    {
      assert history[i] in history;
    }
    CasesForAllMessages(conversationId, history, ids, |history|, conversation, component);
    assert ids[..|history|] == ids;
    var cases := MessageCases(conversationId, history, ids, |history|, conversation, component);
    forall i | 0 <= i < |history|
      ensures cases[i].0 == component && Field(cases[i].1, "expected_output") == Field(history[i], "content")
    {
      var testCase := MakeTestCase(conversationId, ids[i], history[i], conversation);
      assert cases[i] == (component, testCase.value);
    }
  }

  /** Under a wildcard entry, create_test_cases asks for every message id of
      the history. */
  lemma WildcardCases(conversation: map<string, Value>, extract: Extraction, component: string)
    requires ValidExtraction(extract) && "conversation_id" in conversation
    requires EntryFor(extract, conversation["conversation_id"]) == Some(Wildcard)
    requires History(conversation).Ok? && AllMessageIds(History(conversation).value).Ok?
    ensures TestCasesOf(conversation, extract, component) ==
            CasesFor(conversation["conversation_id"], AllMessageIds(History(conversation).value).value,
                     History(conversation), conversation, component)
  {
    assert Get(conversation, "conversation_id") == Ok(conversation["conversation_id"]);
  }

  // ---------------------------------------------------------------------
  // find_test_cases

  /** The test cases of the chunks, in order: a chunk counts when it decodes
      to a dictionary that is a test-case conversation; any other chunk is
      skipped. */
  function ChunkCases(chunks: seq<string>, extract: Extraction, component: string,
                      decode: string -> Option<Value>): Result<seq<Item>>
    requires ValidExtraction(extract)
    decreases |chunks|
  {
    if chunks == [] then Ok([])
    else
      var n := |chunks| - 1;
      var earlier :- ChunkCases(chunks[..n], extract, component, decode);
      ChunkStep(earlier, chunks[n], extract, component, decode)
  }

  /** The test cases after one more chunk, from those before it. */
  function ChunkStep(earlier: seq<Item>, chunk: string, extract: Extraction, component: string,
                     decode: string -> Option<Value>): Result<seq<Item>>
    requires ValidExtraction(extract)
  {
    var conversation := decode(chunk);
    if conversation.Some? && conversation.value.Dict? && IsTestCaseConversation(extract, conversation.value.fields) then
      var cases :- TestCasesOf(conversation.value.fields, extract, component);
      Ok(earlier + cases)
    else Ok(earlier)
  }

  /** A chunk that does not decode, or decodes to something other than a
      selected conversation, contributes nothing. */
  lemma {:induction false} SkipChunk(before: seq<string>, chunk: string, after: seq<string>, extract: Extraction,
                                     component: string, decode: string -> Option<Value>)
    requires ValidExtraction(extract)
    requires decode(chunk).None? || !decode(chunk).value.Dict? ||
             !IsTestCaseConversation(extract, decode(chunk).value.fields)
    ensures ChunkCases(before + [chunk] + after, extract, component, decode) ==
            ChunkCases(before + after, extract, component, decode)
    decreases |after|
  {
    if after == [] {
      assert (before + [chunk])[..|before|] == before;
      assert before + [chunk] + after == before + [chunk];
      assert before + after == before;
    } else {
      var n := |after| - 1;
      SkipChunk(before, chunk, after[..n], extract, component, decode);
      assert (before + [chunk] + after)[..|before| + 1 + n] == before + [chunk] + after[..n];
      assert (before + after)[..|before| + n] == before + after[..n];
      assert (before + [chunk] + after)[|before| + 1 + n] == after[n];
      assert (before + after)[|before| + n] == after[n];
    }
  }

  /** find_test_cases on a file's contents: the contents are split at the
      conversation separator and each chunk is handled in turn; a KeyError
      inside a selected conversation propagates. */
  method FindTestCases(contents: string, extract: Extraction, component: string, decode: string -> Option<Value>)
    returns (r: Result<seq<Item>>)
    requires ValidExtraction(extract)
    ensures r == ChunkCases(Split(contents, ConversationSeparator), extract, component, decode)
  {
    var jsonObjects := Split(contents, ConversationSeparator);
    var testCases: seq<Item> := [];
    for i := 0 to |jsonObjects|
      invariant ChunkCases(jsonObjects[..i], extract, component, decode) == Ok(testCases)
    {
      assert jsonObjects[..i + 1][..i] == jsonObjects[..i] && jsonObjects[..i + 1][i] == jsonObjects[i];
      ghost var next := ChunkStep(testCases, jsonObjects[i], extract, component, decode);
      assert ChunkCases(jsonObjects[..i + 1], extract, component, decode) == next;
      var conversation := decode(jsonObjects[i]);
      if conversation.Some? && conversation.value.Dict? && IsTestCaseConversation(extract, conversation.value.fields) {
        var cases := CreateTestCases(conversation.value.fields, extract, component);
        if cases.Err? {
          ChunkCasesPrefixErr(jsonObjects, i + 1, extract, component, decode);
          return Err(cases.error);
        }
        testCases := testCases + cases.value;
      }
    }
    assert jsonObjects[..|jsonObjects|] == jsonObjects;
    r := Ok(testCases);
  }

  lemma {:induction false} ChunkCasesPrefixErr(chunks: seq<string>, i: nat, extract: Extraction, component: string,
                                               decode: string -> Option<Value>)
    requires ValidExtraction(extract)
    requires i <= |chunks| && ChunkCases(chunks[..i], extract, component, decode).Err?
    ensures ChunkCases(chunks, extract, component, decode) == ChunkCases(chunks[..i], extract, component, decode)
    decreases |chunks| - i
  {
    if i < |chunks| {
      assert chunks[..i + 1][..i] == chunks[..i];
      ChunkCasesPrefixErr(chunks, i + 1, extract, component, decode);
    } else {
      assert chunks[..i] == chunks;
    }
  }
}
