// The conversation-keyed gold-zone reconciler, in the two copies that differ
// only in the application column of the fact key
// (src/llminspect/transformation/goldzone_prep.py uses app_name,
// llminspect/transformation/goldzone_prep.py uses chatbot_name): METADATA
// keyed by (model, intent), CONVERSATION keyed by conversation_id with the
// earliest and latest timestamp, and fact rows that resolve metadata_id, get
// a fresh evaluation_dataset_id and are de-duplicated against the stored
// facts. Fresh UUIDs come from the supply `ids`; instants are integers.
module ConversationGoldzone {
  import opened Tables
  import opened Dimensions

  const MetadataCols: seq<string> := ["model", "intent"]
  const ConversationCols: seq<string> := ["conversation_id"]
  /** The columns selected for the conversation spans. */
  const ConversationSelect: seq<string> := ["conversation_id", "timestamp"]
  /** The batch columns removed from the fact rows. */
  const DroppedCols: set<string> := {"model", "intent"}
  /** The columns a fact row adds to its batch row. */
  const AddedCols: set<string> := {"metadata_id", "evaluation_dataset_id"}

  /** The composite key of a fact row; `appCol` is app_name in one copy and
      chatbot_name in the other. */
  function FactCols(appCol: string): seq<string>
  {
    [appCol, "conversation_id", "metadata_id", "turn_id"]
  }

  /** The batch columns the anti-join against stored facts reads. */
  function FactKeyInputCols(appCol: string): seq<string>
  {
    [appCol, "conversation_id", "turn_id"]
  }

  /** The key columns are distinct and disjoint from the columns added beside them. */
  lemma SchemaFacts()
    ensures NoDup(MetadataCols) && "metadata_id" !in MetadataCols
    ensures NoDup(ConversationCols) && "conv_start_time" !in ConversationCols && "conv_end_time" !in ConversationCols
    ensures "conv_start_time" != "conv_end_time"
  {
    assert |"conv_start_time"| == 15 && |"conv_end_time"| == 13;
  }

  lemma ColumnNamesDistinct()
    ensures AddedCols !! DroppedCols
  {
    assert |"metadata_id"| == 11 && |"evaluation_dataset_id"| == 21;
    forall c | c in DroppedCols ensures c !in AddedCols {
      assert |c| == 5 || |c| == 6;
    }
  }

  // ---------------------------------------------------------------------
  // Dimensions

  /** _get_metadata: the METADATA table after the batch. */
  function GetMetadata(batch: Table, existing: Table, ids: seq<string>): Table
    requires HasColumns(batch, MetadataCols)
    requires |ids| >= |DistinctKeys(batch, MetadataCols)|
  {
    SchemaFacts();
    BuildDimension(batch, existing, MetadataCols, "metadata_id", ids)
  }

  /** With no stored metadata: one row per distinct (model, intent), each with its fresh id. */
  lemma GetMetadataFresh(batch: Table, existing: Table, ids: seq<string>)
    requires HasColumns(batch, MetadataCols)
    requires |ids| >= |DistinctKeys(batch, MetadataCols)|
    requires |existing| == 0
    ensures var r := GetMetadata(batch, existing, ids);
      |r| == |DistinctKeys(batch, MetadataCols)| && NoDup(Keys(r, MetadataCols)) &&
      (forall key :: HasKey(r, MetadataCols, key) <==> HasKey(batch, MetadataCols, key)) &&
      (forall i :: 0 <= i < |r| ==> Cell(r[i], "metadata_id") == Str(ids[i]))
  {
    SchemaFacts();
    BuildDimensionFresh(batch, existing, MetadataCols, "metadata_id", ids);
  }

  /** With stored metadata: the stored rows are kept unchanged in front, only
      tuples not stored are appended, and stored tuples keep their metadata_id. */
  lemma GetMetadataKeepsExisting(batch: Table, existing: Table, ids: seq<string>, key: seq<Value>)
    requires HasColumns(batch, MetadataCols)
    requires |ids| >= |DistinctKeys(batch, MetadataCols)|
    ensures var r := GetMetadata(batch, existing, ids);
      r[..|existing|] == existing &&
      (forall i :: |existing| <= i < |r| ==> !HasKey(existing, MetadataCols, Key(r[i], MetadataCols))) &&
      (HasKey(r, MetadataCols, key) <==> HasKey(existing, MetadataCols, key) || HasKey(batch, MetadataCols, key)) &&
      (NoDup(Keys(existing, MetadataCols)) ==> NoDup(Keys(r, MetadataCols)))
    ensures HasKey(existing, MetadataCols, key) ==>
      Lookup(GetMetadata(batch, existing, ids), MetadataCols, key, "metadata_id") ==
      Lookup(existing, MetadataCols, key, "metadata_id")
  {
    SchemaFacts();
    BuildDimensionKeeps(batch, existing, MetadataCols, "metadata_id", ids);
    if HasKey(existing, MetadataCols, key) {
      BuildDimensionStable(batch, existing, MetadataCols, "metadata_id", ids, key);
    }
  }

  /** The batch's conversation spans: the earliest and the latest timestamp of
      each conversation as conv_start_time and conv_end_time. */
  function ConversationSpans(batch: Table): Table
  {
    SchemaFacts();
    Spans(batch, ConversationCols, "timestamp", "timestamp", "conv_start_time", "conv_end_time")
  }

  /** _get_conversation: the CONVERSATION table after the batch. */
  function GetConversation(batch: Table, existing: Table): Table
    requires HasColumns(batch, ConversationSelect)
  {
    Merge(existing, ConversationSpans(batch), ConversationCols)
  }

  /** The k-th span belongs to the k-th distinct conversation; its start and
      end are the minimum and maximum timestamp of that conversation's rows,
      so it starts no later and ends no earlier than any of them, and it
      starts no later than it ends. */
  lemma ConversationSpan(batch: Table, k: int, i: int)
    requires 0 <= k < |Groups(batch, ConversationCols)| && 0 <= i < |batch|
    requires Key(batch[i], ConversationCols) == Groups(batch, ConversationCols)[k]
    ensures var s := ConversationSpans(batch);
      var ts := Cell(batch[i], "timestamp");
      Key(s[k], ConversationCols) == Key(batch[i], ConversationCols) &&
      (ts.Int? ==> s[k]["conv_start_time"].Int? && s[k]["conv_start_time"].i <= ts.i) &&
      (ts.Int? ==> s[k]["conv_end_time"].Int? && ts.i <= s[k]["conv_end_time"].i) &&
      (s[k]["conv_start_time"].Int? <==> s[k]["conv_end_time"].Int?) &&
      (s[k]["conv_start_time"].Int? ==> s[k]["conv_start_time"].i <= s[k]["conv_end_time"].i)
    ensures var s := ConversationSpans(batch);
      var m := Members(batch, ConversationCols, Groups(batch, ConversationCols)[k]);
      s[k]["conv_start_time"] == MinTime(Column(m, "timestamp")) && s[k]["conv_end_time"] == MaxTime(Column(m, "timestamp"))
  {
    SchemaFacts();
    var s := ConversationSpans(batch);
    assert Keys(s, ConversationCols)[k] == Key(s[k], ConversationCols);
    SpanCells(batch, ConversationCols, "timestamp", "timestamp", "conv_start_time", "conv_end_time", k);
    SpanBounds(batch, ConversationCols, "timestamp", "timestamp", "conv_start_time", "conv_end_time", k, i);
    SpanOrderedSameColumn(batch, ConversationCols, "timestamp", "conv_start_time", "conv_end_time", k);
  }

  /** A stored conversation is never replaced: the stored rows come first and
      unchanged, and a batch span is appended only for a conversation not stored. */
  lemma GetConversationKeepsExisting(batch: Table, existing: Table)
    requires HasColumns(batch, ConversationSelect)
    ensures var r := GetConversation(batch, existing);
      var s := ConversationSpans(batch);
      |r| >= |existing| && r[..|existing|] == existing &&
      (forall i :: |existing| <= i < |r| ==> r[i] in s && !HasKey(existing, ConversationCols, Key(r[i], ConversationCols))) &&
      (|existing| == 0 ==> r == s)
  {
    var s := ConversationSpans(batch);
    MergeKeepsExisting(existing, s, ConversationCols);
  }

  // ---------------------------------------------------------------------
  // Fact rows

  /** The fact row built from batch row `r`: metadata_id looked up, the fresh
      id added, model and intent dropped. */
  function FactRow(r: Row, metadata: Table, id: string): Row
  {
    r["metadata_id" := Lookup(metadata, MetadataCols, Key(r, MetadataCols), "metadata_id")]
     ["evaluation_dataset_id" := Str(id)] - DroppedCols
  }

  /** What a fact row holds: the resolved metadata_id, the fresh id, no model
      or intent, and every other batch cell unchanged. */
  lemma FactRowContents(r: Row, metadata: Table, id: string)
    ensures var f := FactRow(r, metadata, id);
      Cell(f, "metadata_id") == Lookup(metadata, MetadataCols, Key(r, MetadataCols), "metadata_id") &&
      Cell(f, "evaluation_dataset_id") == Str(id) &&
      "model" !in f && "intent" !in f &&
      (forall c :: (c in r && c !in DroppedCols && c !in AddedCols) ==> c in f && f[c] == r[c]) &&
      f.Keys == r.Keys + AddedCols - DroppedCols
  {
    ColumnNamesDistinct();
    var f := FactRow(r, metadata, id);
    assert "metadata_id" in AddedCols && "evaluation_dataset_id" in AddedCols;
    assert "metadata_id" in f && "evaluation_dataset_id" in f;
  }

  /** The fact rows of a batch, the i-th with the i-th fresh id. */
  function FactRows(t: Table, metadata: Table, ids: seq<string>): (f: Table)
    requires |ids| >= |t|
    ensures |f| == |t|
    ensures forall i :: 0 <= i < |t| ==> f[i] == FactRow(t[i], metadata, ids[i])
  {
    seq(|t|, i requires 0 <= i < |t| => FactRow(t[i], metadata, ids[i]))
  }

  /** Distinct fresh ids give the fact rows distinct evaluation_dataset_ids. */
  lemma FactIdsDistinct(t: Table, metadata: Table, ids: seq<string>)
    requires |ids| >= |t| && NoDup(ids)
    ensures var f := FactRows(t, metadata, ids);
      forall i, j :: 0 <= i < j < |f| ==> Cell(f[i], "evaluation_dataset_id") != Cell(f[j], "evaluation_dataset_id")
  {
    var f := FactRows(t, metadata, ids);
    forall i | 0 <= i < |f| ensures Cell(f[i], "evaluation_dataset_id") == Str(ids[i]) {
      FactRowContents(t[i], metadata, ids[i]);
    }
  }

  /** The final anti-join: everything when nothing is stored, else the rows
      whose (application, conversation_id, metadata_id, turn_id) is not stored. */
  function NewFacts(facts: Table, existing: Table, appCol: string): Table
  {
    if |existing| == 0 then facts else Absent(facts, existing, FactCols(appCol))
  }

  /** The surviving fact rows are exactly those whose composite key is not
      stored, in batch order. */
  lemma NewFactsExact(facts: Table, existing: Table, appCol: string)
    ensures NewFacts(facts, existing, appCol) == Absent(facts, existing, FactCols(appCol))
    ensures IsSubsequence(NewFacts(facts, existing, appCol), facts)
    ensures forall x :: x in NewFacts(facts, existing, appCol) <==>
      x in facts && !HasKey(existing, FactCols(appCol), Key(x, FactCols(appCol)))
  {
    var cols := FactCols(appCol);
    if |existing| == 0 {
      FilterAll(facts, (x: Row) => !HasKey(existing, cols, Key(x, cols)));
    }
    FilterIsSubsequence(facts, (x: Row) => !HasKey(existing, cols, Key(x, cols)));
  }

  /** _get_fact_data. It rewrites the caller's batch into the fact rows and
      returns those whose composite key is new. The metadata index must be
      unique for the lookup to be defined, and the batch must carry the
      timestamp column the source converts (the conversion is the identity
      on integer instants). */
  method GetFactData(batch: Frame, existingFact: Table, metadata: Table, ids: seq<string>, appCol: string)
    returns (r: Table)
    requires HasColumns(batch.rows, MetadataCols) && HasColumns(batch.rows, ["timestamp"])
    requires |existingFact| > 0 ==> HasColumns(batch.rows, FactKeyInputCols(appCol))
    requires NoDup(Keys(metadata, MetadataCols))
    requires |ids| >= |batch.rows|
    modifies batch
    ensures batch.rows == FactRows(old(batch.rows), metadata, ids)
    ensures r == NewFacts(batch.rows, existingFact, appCol)
  {
    batch.rows := FactRows(batch.rows, metadata, ids);
    r := NewFacts(batch.rows, existingFact, appCol);
  }

  // ---------------------------------------------------------------------
  // The whole step

  /** The fact rows one run builds, against the metadata table it has just
      updated: metadata ids come first in the supply, then one per batch row. */
  function BatchFacts(t: Table, existingMetadata: Table, ids: seq<string>): (f: Table)
    requires HasColumns(t, MetadataCols)
    requires |ids| >= |DistinctKeys(t, MetadataCols)| + |t|
    ensures |f| == |t|
  {
    FactRows(t, GetMetadata(t, existingMetadata, ids), ids[|DistinctKeys(t, MetadataCols)|..])
  }

  /** create_goldzone_tables: metadata and conversation first, then the facts
      against the updated metadata. Returns (fact, metadata, conversation). */
  method CreateGoldzoneTables(batch: Frame, existingFact: Table, existingMetadata: Table,
                              existingConversation: Table, ids: seq<string>, appCol: string)
    returns (fact: Table, metadata: Table, conversation: Table)
    requires HasColumns(batch.rows, MetadataCols) && HasColumns(batch.rows, ConversationSelect)
    requires |existingFact| > 0 ==> HasColumns(batch.rows, FactKeyInputCols(appCol))
    requires NoDup(Keys(existingMetadata, MetadataCols))
    requires |ids| >= |DistinctKeys(batch.rows, MetadataCols)| + |batch.rows|
    modifies batch
    ensures metadata == GetMetadata(old(batch.rows), existingMetadata, ids)
    ensures conversation == GetConversation(old(batch.rows), existingConversation)
    ensures batch.rows == BatchFacts(old(batch.rows), existingMetadata, ids)
    ensures fact == NewFacts(batch.rows, existingFact, appCol)
  {
    var t := batch.rows;
    var m := |DistinctKeys(t, MetadataCols)|;
    metadata := GetMetadata(t, existingMetadata, ids);
    conversation := GetConversation(t, existingConversation);
    SchemaFacts();
    BuildDimensionKeeps(t, existingMetadata, MetadataCols, "metadata_id", ids);
    assert HasColumns(t, ["timestamp"]) by {
      assert "timestamp" in ConversationSelect;
    }
    fact := GetFactData(batch, existingFact, metadata, ids[m..], appCol);
  }

  /** Computing the metadata before the facts means every fact row resolves a
      metadata_id, provided the stored metadata rows all carry one. */
  lemma FactsResolveMetadata(t: Table, existingMetadata: Table, ids: seq<string>, i: int)
    requires HasColumns(t, MetadataCols)
    requires |ids| >= |DistinctKeys(t, MetadataCols)| + |t|
    requires forall j :: 0 <= j < |existingMetadata| ==> Cell(existingMetadata[j], "metadata_id") != Null
    requires 0 <= i < |t|
    ensures Cell(BatchFacts(t, existingMetadata, ids)[i], "metadata_id") != Null
  {
    var m := |DistinctKeys(t, MetadataCols)|;
    var metadata := GetMetadata(t, existingMetadata, ids);
    assert BatchFacts(t, existingMetadata, ids) == FactRows(t, metadata, ids[m..]);
    SchemaFacts();
    BuildDimensionResolves(t, existingMetadata, MetadataCols, "metadata_id", ids, i);
    FactRowContents(t[i], metadata, ids[m..][i]);
  }
}
