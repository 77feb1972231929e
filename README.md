# LLM evaluation pipeline, modelled in Dafny

This project models, in Dafny, the batch path of the LLM evaluation samples.
Harvested chatbot logs become gold-zone tables and evaluation rows, and the
metric results are written back.

- **Gold-zone reconcilers.** There are three copies. Each builds dimension
  tables keyed by natural-key tuples. A fresh surrogate id goes only to a
  tuple not already stored. Session and conversation time spans come from
  per-key minimum and maximum instants. Application ids are resolved, and a
  miss is fatal. Fact rows whose composite key is already stored are dropped.
- **Conversation sampler.** It keeps the first ⌊F·n⌋ distinct conversations.
- **Record transformer and cleaner.** It renames payload fields to target
  columns per mapping. It extracts the LLM response, drops nulls, adds
  constant columns, concatenates and fills "NA".
- **Mapping entities and configuration builders.** The entities have
  `to_dict`/`from_dict` round trips. The builders filter active evaluators,
  build nested mappings and look up the parent bot recursively.
- **Metrics path.** It covers:
  - the prompt-flow input and score parsing;
  - the prep-data filter;
  - DIM_METRIC reconciliation and the fact rows;
  - the row counting of `read_metrics`;
  - the SQL statements and parameter lists the database handlers assemble.
- **Date and partition helpers.** These are the scheduling window, the
  one-directory-per-day partition paths, and the partition columns.
- **Weather-chatbot evaluation helpers.** These are test-case extraction, the
  two scorers, and the chatbot's conversation state machine. Its language-model
  assistants are left abstract.

Each core file is modelled in its own form:

- pure code becomes datatypes, functions and lemmas;
- code that mutates a data frame or an object in place becomes a class with
  `modifies` clauses;
- loops become methods proved against a specification function.

Rows are `map<string, Value>` and tables are `seq<Row>`. `Value` covers
None, bool, int, str, list and dict. Surrogate UUIDs come from an injected
sequence `ids` of fresh identifiers. Instants are integers.

## Model

| member | source | states |
|---|---|---|
| Dimensions.KeyRow | src/transformation/goldzone_prep.py:21 | the row built for a key tuple holds exactly the key columns, and its key is that tuple |
| Dimensions.DistinctKeys | src/transformation/goldzone_prep.py:21 | `drop_duplicates` over the key columns: no tuple twice, and exactly the tuples occurring in the batch |
| Dimensions.WithIds | src/transformation/goldzone_prep.py:22 | one dimension row per tuple, in order; the i-th carries the i-th fresh id; each row holds only the key columns and the id column |
| Dimensions.Absent | src/transformation/goldzone_prep.py:25-26 | the `~isin` filter keeps exactly the batch rows whose key tuple is not stored |
| Dimensions.KeysAppend | src/transformation/goldzone_prep.py:27 | the keys of a concatenation are the keys of the parts, in order |
| Dimensions.MergeIsAppendAbsent | src/transformation/goldzone_prep.py:23-27 | the empty-store shortcut agrees with the general case: the result is the stored rows followed by the absent batch rows |
| Dimensions.MergeKeepsExisting | src/transformation/goldzone_prep.py:25-27 | the merge keeps every stored row unchanged and in place; each appended row is a batch row whose key is not stored |
| Dimensions.MergeCovers | src/transformation/goldzone_prep.py:25-27 | every batch key is present after the merge |
| Dimensions.MergeKeySet | src/transformation/goldzone_prep.py:25-27 | a key is present after the merge if and only if it was stored or occurs in the batch |
| Dimensions.FilterKeepsUniqueKeys | src/transformation/goldzone_prep.py:25-26 | filtering a table with unique keys leaves the keys unique |
| Dimensions.MergeKeepsUniqueKeys | src/transformation/goldzone_prep.py:25-28 | unique stored keys and unique batch keys give unique merged keys |
| Dimensions.Lookup | src/transformation/goldzone_prep.py:96-98 | `Series.map` over a keyed index: null for a key not stored, otherwise the id cell of a row with that key |
| Dimensions.LookupUnique | src/transformation/goldzone_prep.py:96-98 | with unique keys, looking up a stored row's key gives that row's id |
| Dimensions.LookupResolves | src/transformation/goldzone_prep.py:96-98 | when no stored id is null, every stored key resolves to a non-null id |
| Dimensions.LookupAppend | src/transformation/goldzone_prep.py:27 | a lookup in stored rows followed by appended rows: a stored key resolves in the stored part, any other key in the appended rows |
| Dimensions.BuildDimensionFresh | src/transformation/goldzone_prep.py:21-24 | with nothing stored: one row per distinct batch tuple, unique keys, exactly the batch's keys, the i-th row with the i-th fresh id |
| Dimensions.BuildDimensionKeeps | src/transformation/goldzone_prep.py:25-28 | with rows stored: they are kept unchanged in front, only batch tuples not stored are appended, and unique stored keys stay unique |
| Dimensions.BuildDimensionStable | src/transformation/goldzone_prep.py:25-28 | surrogate stability: a stored tuple with unique keys keeps its stored id |
| Dimensions.BuildDimensionResolves | src/transformation/goldzone_prep.py:21-28 | every batch tuple resolves to a non-null id in the new dimension, given that stored ids are non-null |
| Dimensions.MinTime | src/transformation/goldzone_prep.py:65 | `min` with nulls skipped: an instant of the column no later than every instant in it, or null when there is none |
| Dimensions.MaxTime | src/transformation/goldzone_prep.py:65 | `max` with nulls skipped: an instant of the column no earlier than every instant in it, or null when there is none |
| Dimensions.Column | src/transformation/goldzone_prep.py:62 | the column's cells, one per row, in row order |
| Dimensions.Members | src/transformation/goldzone_prep.py:65 | a group holds exactly the rows with that key |
| Dimensions.Groups | src/transformation/goldzone_prep.py:65 | the group keys are distinct, and are exactly the keys of the rows with no null key cell (`dropna`) |
| Dimensions.SpanRow | src/transformation/goldzone_prep.py:65-67 | an aggregated row has the group's key and exactly the key, start and end columns |
| Dimensions.Spans | src/transformation/goldzone_prep.py:65-67 | one aggregated row per group, in group order |
| Dimensions.SpanBounds | src/transformation/goldzone_prep.py:65-67 | a span starts no later than any member's start instant and ends no earlier than any member's end instant |
| Dimensions.SpanCells | src/transformation/goldzone_prep.py:65-67 | the k-th aggregated row holds, under its start and end columns, the least start instant and the greatest end instant of the k-th group's rows, nulls skipped |
| Dimensions.SpanStartAttained | src/transformation/goldzone_prep.py:65 | a span's start, when it is an instant, is the start instant of some member of the group |
| Dimensions.SpanOrdered | src/transformation/goldzone_prep.py:65-67 | when every row's start instant is no later than its end instant, every span starts no later than it ends |
| Dimensions.SpanOrderedSameColumn | src/llminspect/transformation/goldzone_prep.py:52-53 | aggregating one column for both ends gives start <= end, and the two ends are both instants or both null |
| Goldzone.GetMetadataFresh | src/transformation/goldzone_prep.py:20-24 | with no stored metadata: exactly one METADATA row per distinct (business_unit, super_category, vertical, pid), unique keys, each with its fresh id |
| Goldzone.GetMetadataKeepsExisting | src/transformation/goldzone_prep.py:25-28 | with stored metadata: stored rows are kept unchanged in front; only absent tuples are appended; the key set is stored ∪ batch; unique keys stay unique; stored tuples keep their metadata_id |
| Goldzone.GetRouterFunctionDataKeepsExisting | src/transformation/goldzone_prep.py:41-49 | ROUTER_FUNCTION follows the same rule keyed on router_function: a fresh id per distinct value when empty, stored rows and ids kept, only new values appended |
| Goldzone.SessionSpan | src/transformation/goldzone_prep.py:62-67 | the k-th session row has the k-th distinct (session_id, conversation_id); its start_time is the least query_time and its end_time the greatest response_time of the session's rows, so no later and no earlier than any of them |
| Goldzone.GetSessionKeepsExisting | src/transformation/goldzone_prep.py:73-78 | a stored session is never replaced: stored rows first and unchanged; a batch span is appended only for a key not stored, and the batch row for a stored key is discarded |
| Goldzone.FactRowContents | src/transformation/goldzone_prep.py:96-126 | a fact row holds the metadata, application and router ids its batch row resolves to ('NA' when the batch has no router_function column), the fresh evaluation_dataset_id, query_time defaulted from response_time, none of the dropped descriptive columns, and every other cell unchanged |
| Goldzone.FactRows | src/transformation/goldzone_prep.py:119 | one fact row per batch row, in order, the i-th with the i-th fresh id |
| Goldzone.NewFactsExact | src/transformation/goldzone_prep.py:129-133 | the surviving facts are exactly the fact rows whose (app_id, session_id, metadata_id, transcript_id) is not stored, in batch order; all of them when nothing is stored |
| Goldzone.FactIdsDistinct | src/transformation/goldzone_prep.py:119 | distinct fresh ids give distinct evaluation_dataset_ids |
| Goldzone.GetFactData | src/transformation/goldzone_prep.py:81-133 | fails exactly when some batch row's (app_name, app_type) does not resolve, leaving the caller's batch with metadata_id and app_id added; otherwise the caller's batch becomes the fact rows and the new facts are returned |
| Goldzone.CreateGoldzoneTables | src/transformation/goldzone_prep.py:136-167 | metadata, session and router tables are computed first, with metadata ids then router ids taken from the supply, and the facts use the updated tables; the call fails exactly on a missing application; transcript_id is required of the batch only when facts are already stored, since only the fact deduplication reads it (session_id the session table reads in any case) |
| Goldzone.BatchFacts | src/transformation/goldzone_prep.py:159-165 | a run builds one fact row per batch row |
| Goldzone.BatchFactsUnfold | src/transformation/goldzone_prep.py:159-165 | the fact rows of a run are built against the metadata and router tables of the same run, with the fresh ids left after the dimensions |
| Goldzone.FactRowsResolve | src/transformation/goldzone_prep.py:96-110 | a fact row carries the metadata_id and router_function_id its batch row's tuple and router_function look up |
| Goldzone.MetadataResolves | src/transformation/goldzone_prep.py:21-28 | every batch row's metadata tuple resolves in the updated METADATA table |
| Goldzone.RouterResolves | src/transformation/goldzone_prep.py:42-49 | every batch row's router_function resolves in the updated ROUTER_FUNCTION table |
| Goldzone.FactsResolveDimensions | src/transformation/goldzone_prep.py:159-165 | because the dimensions are built first, every fact row of a run has a non-null metadata_id and router_function_id, given that the stored dimension ids are non-null |
| ConversationGoldzone.GetMetadataFresh | src/llminspect/transformation/goldzone_prep.py:29-33 | with no stored metadata: one row per distinct (model, intent), unique keys, exactly the batch's keys, each with its fresh id |
| ConversationGoldzone.GetMetadataKeepsExisting | src/llminspect/transformation/goldzone_prep.py:33-36 | stored metadata kept unchanged in front, only absent (model, intent) tuples appended, key set stored ∪ batch, uniqueness kept, stored ids stable |
| ConversationGoldzone.ConversationSpan | src/llminspect/transformation/goldzone_prep.py:50-56 | the k-th CONVERSATION row belongs to the k-th distinct conversation; its start and end are the least and greatest timestamp of that conversation, so it starts no later and ends no earlier than every timestamp and starts no later than it ends |
| ConversationGoldzone.GetConversationKeepsExisting | src/llminspect/transformation/goldzone_prep.py:58-63 | a stored conversation is never replaced; a batch span is appended only for a conversation not stored |
| ConversationGoldzone.FactRowContents | src/llminspect/transformation/goldzone_prep.py:79-86 | a fact row holds the looked-up metadata_id and the fresh id, none of model and intent, and every other batch cell unchanged; its key set is exactly the batch row's plus the added minus the dropped columns |
| ConversationGoldzone.FactRows | src/llminspect/transformation/goldzone_prep.py:84 | one fact row per batch row, the i-th with the i-th fresh id |
| ConversationGoldzone.FactIdsDistinct | src/llminspect/transformation/goldzone_prep.py:84 | distinct fresh ids give distinct evaluation_dataset_ids |
| ConversationGoldzone.NewFactsExact | src/llminspect/transformation/goldzone_prep.py:89-93 | the surviving facts are exactly those whose (application, conversation_id, metadata_id, turn_id) is not stored, in batch order; the application column is app_name here and chatbot_name in llminspect/transformation/goldzone_prep.py:55 |
| ConversationGoldzone.GetFactData | src/llminspect/transformation/goldzone_prep.py:66-93 | on a batch with the metadata columns and the timestamp column the `dt.year`/`dt.month`/`dt.day` lines read, the caller's batch becomes the fact rows, and the rows with a new composite key are returned |
| ConversationGoldzone.BatchFacts | src/llminspect/transformation/goldzone_prep.py:112-116 | a run builds one fact row per batch row |
| ConversationGoldzone.CreateGoldzoneTables | src/llminspect/transformation/goldzone_prep.py:96-117 | metadata and conversation tables first, then the facts against the updated metadata, with the metadata ids taken first from the supply |
| ConversationGoldzone.FactsResolveMetadata | src/llminspect/transformation/goldzone_prep.py:112-116 | because metadata is built first, every fact row of a run has a non-null metadata_id, given that the stored metadata ids are non-null |
| Sampling.TruncDiv | postprod-eval/src/llmevalgrader/transformation/sampling.py:23 | Python's `int()` of a quotient truncates toward zero, on both signs |
| Sampling.SliceLength | postprod-eval/src/llmevalgrader/transformation/sampling.py:23 | `xs[:c]` keeps c elements, at most all of them, and a negative c counts from the end |
| Sampling.SampledConversations | postprod-eval/src/llmevalgrader/transformation/sampling.py:21-23 | the sampled ids are a prefix of the distinct conversation ids in first-seen order, of length int(F·count) clipped as the slice does |
| Sampling.SimpleSample | postprod-eval/src/llmevalgrader/transformation/sampling.py:24 | a row is kept if and only if it is an input row whose conversation is sampled |
| Sampling.SampleIsSubsequence | postprod-eval/src/llmevalgrader/transformation/sampling.py:24 | sampling only deletes rows and keeps the input order |
| Sampling.SampleIsConversationAtomic | postprod-eval/src/llmevalgrader/transformation/sampling.py:24 | rows of the same conversation are all kept or all dropped |
| Sampling.TruncDivCovers | postprod-eval/src/llmevalgrader/transformation/sampling.py:23 | a fraction of at least 1 gives a count of at least n |
| Sampling.TruncDivMonotone | postprod-eval/src/llmevalgrader/transformation/sampling.py:23 | the count int(F·n) grows with F |
| Sampling.SampleAll | postprod-eval/src/llmevalgrader/transformation/sampling.py:21-24 | a fraction of at least 1 returns the input unchanged |
| Sampling.SampleNone | postprod-eval/src/llmevalgrader/transformation/sampling.py:21-24 | a fraction of 0 returns no rows |
| Sampling.SampleDefaultCount | postprod-eval/src/llmevalgrader/transformation/sampling.py:8 | the default fraction 0.8 keeps the first ⌊4n/5⌋ of n distinct conversations |
| Sampling.SampleMonotone | postprod-eval/src/llmevalgrader/transformation/sampling.py:21-24 | a larger fraction keeps a longer prefix of the conversations, and every row kept by the smaller fraction |
| Transform.MappedRow | postprod-eval/src/llmevalgrader/transformation/transform.py:51-61 | a mapped row has exactly the mapping's target columns |
| Transform.MappedRowCell | postprod-eval/src/llmevalgrader/transformation/transform.py:54-61 | a target cell holds the value of the last mapping column writing it: the row's own TimeGenerated for that source, the payload field otherwise |
| Transform.MappedRowCells | postprod-eval/src/llmevalgrader/transformation/transform.py:54-61 | with distinct target names, each target takes its own column's value |
| Transform.ConversationRowsContents | postprod-eval/src/llmevalgrader/transformation/transform.py:51-63 | one mapped row per log row; each target cell as the mapping says; app_type "conversation" in the tagging copy; no other columns |
| Transform.LlmRowsResponse | postprod-eval/src/llmevalgrader/transformation/transform.py:78-93 | one mapped row per log row, holding exactly the mapped target columns, response and (when tagging) app_type; each mapped column holds its source cell, the response is choices[0].message.content of llm_response or None without it, and app_type is "llm" in the tagging copy |
| Transform.TransformConversationData | postprod-eval/src/llmevalgrader/transformation/transform.py:41-64 | the DTO is updated in place to the mapped conversation frame and returned |
| Transform.MapColumns | postprod-eval/src/llmevalgrader/transformation/transform.py:51-61 | the column loop: no rows without mapping columns, otherwise one mapped row per log row |
| Transform.TransformLlmData | postprod-eval/src/llmevalgrader/transformation/transform.py:67-94 | the DTO is updated in place to the mapped llm frame with the response column and returned |
| Transform.TransformData | postprod-eval/src/llmevalgrader/transformation/transform.py:113-137 | the same DTOs come back in the same order; conversation_data and llm_data frames are transformed, and any other frame passes through unchanged |
| Transform.DropNullExact | postprod-eval/src/llmevalgrader/transformation/transform.py:152 | `dropna` keeps exactly the rows without a null, in order, and is idempotent |
| Transform.CleanData | postprod-eval/src/llmevalgrader/transformation/transform.py:139-155 | every DTO's frame loses exactly its rows with a null, in place |
| Transform.WithColumn | postprod-eval/src/llmevalgrader/transformation/transform.py:172 | every row gets the column with the constant, and every other cell is kept |
| Transform.AddOptionalExtraColumns | postprod-eval/src/llmevalgrader/transformation/transform.py:157-173 | every row of every DTO gets the extra column with the constant value, in place |
| Transform.ConcatAppend | postprod-eval/src/llmevalgrader/transformation/transform.py:186 | concatenating two lists of frames is concatenating their concatenations |
| Transform.ConcatMembers | postprod-eval/src/llmevalgrader/transformation/transform.py:186 | `pd.concat` loses no row and invents none: every row of every frame is in the concatenation and every row of it comes from some frame |
| Transform.ConcatData | postprod-eval/src/llmevalgrader/transformation/transform.py:175-189 | every row of every DTO's frame is in the result and every row of the result comes from some DTO's frame |
| Transform.ConcatRows | postprod-eval/src/llmevalgrader/transformation/transform.py:175-189 | concatenation keeps every row of every frame, after the rows of the frames before it |
| Transform.FillMissing | postprod-eval/src/llmevalgrader/transformation/transform.py:191-205 | every row gets every column of the frame, and exactly the null or missing cells become "NA" |
| Transform.FillMissingNoNull | postprod-eval/src/llmevalgrader/transformation/transform.py:191-205 | after filling nothing is null, so a later `dropna` removes nothing |
| Transform.FillMissingIdempotent | postprod-eval/src/llmevalgrader/transformation/transform.py:191-205 | filling keeps the frame's columns, and filling again changes nothing |
| Entities.TransformationDto.constructor | src/llminspect/common/entities.py:146-149 | a DTO holds the name, mapping and frame it is built with |
| Entities.MappingColumnToDict | src/llminspect/common/entities.py:21-29 | the dictionary has exactly source_name, target_name and data_type, holding the column's strings |
| Entities.StrField | src/llminspect/common/entities.py:36 | a field is read exactly when the dictionary holds a string under that key, and the string read is the one stored; a key that is missing fails, as `d[key]` raises KeyError (a non-string value is rejected, see Left out) |
| Entities.MappingColumnRoundTrip | src/llminspect/common/entities.py:21-36 | `from_dict(to_dict(c)) == c` for every column |
| Entities.MappingColumnFromDictExact | src/llminspect/common/entities.py:31-36 | reading a column succeeds exactly on a dictionary with the three fields holding strings (a missing one is a KeyError), and writing the result back reproduces those fields |
| Entities.UnboundFromDict | llminspect/common/entities.py:31-35 | in the older copy `from_dict` has no decorator, so calling it on the class with a dictionary always fails with TypeError |
| Entities.UnboundFromDictRoundTripFails | llminspect/common/entities.py:21-35 | the dictionary written for the column query/user_query/string reads back as that column through the decorated `from_dict`, but not through the older copy's undecorated one |
| Entities.ColumnsToDicts | src/llminspect/common/entities.py:54-57 | one dictionary per column, in order |
| Entities.ColumnsFromDicts | src/llminspect/common/entities.py:64 | every element is read back in order; the list fails exactly when some element fails |
| Entities.ColumnsRoundTrip | src/llminspect/common/entities.py:54-64 | a column list reads back as itself, in order |
| Entities.MappingToDict | src/llminspect/common/entities.py:50-58 | the dictionary has exactly name and columns, the columns as dictionaries in order |
| Entities.MappingRoundTrip | src/llminspect/common/entities.py:50-64 | a mapping reads back with its name and its columns in order |
| Entities.MappingsToDicts | src/llminspect/common/entities.py:81-84 | one dictionary per mapping, in order |
| Entities.MappingsFromDicts | src/llminspect/common/entities.py:90 | every mapping is read back in order when the list succeeds |
| Entities.MappingsRoundTrip | src/llminspect/common/entities.py:77-90 | a list of mappings reads back as itself |
| Entities.MappingListToDict | src/llminspect/common/entities.py:77-84 | the dictionary has exactly the key mappings, holding the mappings' dictionaries in order |
| Entities.MappingListRoundTrip | src/llminspect/common/entities.py:77-90 | a mapping list reads back as itself |
| Entities.DataSourceToDict | src/llminspect/common/entities.py:110-122 | the dictionary has exactly type "azure_monitor", table and workspace_id_secret_key |
| Entities.DataSourceFromDict | src/llminspect/common/entities.py:124-134 | a data source is read exactly from a dictionary holding table and workspace_id_secret_key strings, carries those two values, and always has the type azure_monitor, whatever the dictionary says |
| Entities.MappingFromDict | src/llminspect/common/entities.py:60-65 | a mapping is read exactly when the dictionary has a string name and a columns list whose every entry reads as a column; it has that name and, in order, the columns read from the entries |
| Entities.MappingListFromDict | src/llminspect/common/entities.py:88-93 | a mapping list is read exactly when the dictionary has a mappings list whose every entry reads as a mapping; it holds, in order, the mappings read from the entries |
| Entities.DataSourceRoundTrip | src/llminspect/common/entities.py:110-134 | a data source reads back as itself |
| EvalEntities.MetricToDict | src/common/entities.py:53-62 | a metric's dictionary has exactly the keys metric_name, metric_type and metric_allowed_values, holding the metric's fields; the id is not among them |
| EvalEntities.MetricToDictIgnoresId | src/common/entities.py:53-62 | two metrics have the same dictionary exactly when they differ at most in their id |
| EvalEntities.GetColumns | src/common/entities.py:306-322 | one entry per column, in column order, each with exactly the keys source, target and data_type |
| EvalEntities.ColumnEntryRenamesToDict | src/common/entities.py:233-241 | get_columns carries the same three values as MappingColumn.to_dict, under the keys source and target instead of source_name and target_name |
| EvalEntities.EvaluationTypeEntry | src/common/entities.py:332-338 | an evaluation type's entry has exactly the keys evaluation and distribution, holding its fields |
| EvalEntities.GetEvaluationTypes | src/common/entities.py:324-339 | one entry per evaluation type, in order |
| EvalEntities.NestedToDict | src/common/entities.py:463-474 | the dictionary has exactly the five keys; an unset name or sort_by is None, and the sub-fields are their MappingColumn dictionaries in order |
| EvalEntities.NestedFromDict | src/common/entities.py:476-486 | a nested column is read exactly when all five keys are present, source_name, target_name and sort_by are strings or None, data_type is a string and every sub_fields entry reads back as a MappingColumn; each field of the result is the value stored under its key |
| EvalEntities.NestedRoundTrip | src/common/entities.py:463-486 | a nested column reads back as itself, sub-fields included |
| Config.ParentBotName | src/common/config_handler.py:9-25 | a name found is the name of an app whose first entry is a bot; a bot's own name is returned; an unknown name finds nothing |
| Config.ParentBotNameMoreFuel | src/common/config_handler.py:20-25 | a name once found stays the same whatever further step bound is allowed, so the bound only cuts cycles of parents |
| Config.ParentBotNameOfChild | src/common/config_handler.py:24-25 | an app that is not a bot gets the search result of its lowercased parent name |
| Config.ParentBotNameFuelSuffices | src/common/config_handler.py:20-25 | the number of apps is always enough steps: a search that succeeds with any bound gives the same name with that many, and a larger bound changes nothing, so the bound only cuts parent cycles that reach no bot |
| Config.BotPathDistinct | src/common/config_handler.py:20-25 | a successful search visits no name twice, which is why it needs no more steps than there are apps |
| Config.AppFor | src/common/config_handler.py:43-51 | the App has the lowercased name and parent, the lowercased parent bot, and fails exactly when the parent has no bot; the postprod copy keeps only name and type |
| Config.AppForFuel | src/common/config_handler.py:43-51 | an app built with any search bound is the one built with the number of apps as the bound |
| Config.ActiveRefs | src/common/config_handler.py:52-54 | an evaluator reference is kept exactly when its active value is the string "true" |
| Config.FindDef | src/common/config_handler.py:56 | the definition is the first one with the evaluator's name; none means no definition has that name |
| Config.BuildMetrics | src/common/config_handler.py:57-60 | one Metric per metric entry, in order, with value_type as its metric type |
| Config.BuildEvaluator | src/common/config_handler.py:61-71 | name, endpoint and schedule come from the app's reference; type, flow path, metrics and version from the definition |
| Config.EvaluatorsFor | src/common/config_handler.py:55-72 | one Evaluator per active reference, in order, each built from its first definition; an error exactly when some reference has no definition |
| Config.ConfigEvaluators | src/common/config_handler.py:42-73 | as many evaluators as active references over all apps, each carrying a lowercased app name |
| Config.ConfigEvaluatorsExact | src/common/config_handler.py:42-73 | the evaluators are built exactly when every app's record builds and every active reference of every app has a definition, and they are then each app's evaluators in turn, app after app |
| Config.EvaluatorsFromOk | src/common/config_handler.py:42-73 | the loop over the remaining apps fails exactly when one of them cannot be built |
| Config.EvaluatorsFromValue | src/common/config_handler.py:42-73 | when every remaining app builds, the loop appends each app's evaluators, in order, to those already built |
| Config.EvaluatorsFromFuel | src/common/config_handler.py:42-73 | evaluators built over the apps with any search bound that succeeds are those built with the number of apps as the bound |
| Config.AppEvaluators | src/common/config_handler.py:55-72 | the inner loop builds exactly the evaluators of its app's active references |
| Config.GetEvaluatorInfo | src/common/config_handler.py:27-73 | the loop over apps builds exactly ConfigEvaluators of all apps, with the number of apps as the parent-search bound, which by EvaluatorsFromFuel gives the same result as any bound that succeeds |
| Config.ActiveOnly | postprod-eval/src/llmevalgrader/common/config_handler.py:86-106 | every evaluator produced comes from an active reference of that name, with the type and metrics of its first definition |
| Config.BuildTransformer | src/common/config_handler.py:248-272 | one MappingColumn per mapping and one EvaluationType per evaluation type, in order, plus the bot's name and the entry's fields |
| Config.TransformersShape | src/common/config_handler.py:246-247 | one transformer per transformation entry over all bots, each naming one of the bots (TransformerAt gives each one's position) |
| Config.GetTransformerInfo | src/common/config_handler.py:226-273 | the nested loop builds exactly the transformers of every bot's transformations, bot after bot |
| Config.TransformerAt | src/common/config_handler.py:246-272 | the t-th transformation of the j-th bot is built into the transformer at the position after all transformations of the earlier bots |
| Config.DataTransformer | postprod-eval/src/llmevalgrader/common/config_handler.py:33-41 | a transformer is built exactly when the five string fields are present, the source reads back with its from_dict and the entry reads back as a mapping list; each of its seven fields is the one read |
| Config.TransformationEntries | postprod-eval/src/llmevalgrader/common/config_handler.py:32 | a configuration without transformation_config has no entries |
| Config.GetDataTransformerInfo | postprod-eval/src/llmevalgrader/common/config_handler.py:9-42 | one Transformer per entry, in order, exactly when every entry can be read; a missing transformation_config gives none |
| HumanConfig.ColumnMappingOf | src/common/config_handler.py:124-168 | a nested entry becomes a nested column with its sub-fields in order and sort_by None when absent, with no source name on the input side and no target name on the output side; any other entry is a MappingColumn, readable exactly when source, target and data type are present |
| HumanConfig.ColumnMappingsOf | src/common/config_handler.py:123-168 | one column mapping per entry, in order, and a list exactly when every entry can be read |
| HumanConfig.ColumnMappings | src/common/config_handler.py:123-145 | the mapping loop builds exactly ColumnMappingsOf |
| HumanConfig.FirstDeployment | src/common/config_handler.py:182-193 | the deployment used is the first one with the name, and none exists when no deployment has it |
| HumanConfig.Platform | src/common/config_handler.py:119-122 | platform details are present exactly for the taskmonk platform, with its project id and batch name prefix |
| HumanConfig.HumanPair | src/common/config_handler.py:97-177 | the pair exists exactly when the evaluator has a definition and both mapping lists can be read; the Evaluator has no flow path, endpoint or schedule and lowercased app names, and the HumanEvaluator keeps the names as given |
| HumanConfig.HumanPairs | src/common/config_handler.py:96-177 | one pair per active reference, in order; an error only when some reference fails |
| HumanConfig.DetailsOf | src/common/config_handler.py:90-195 | the details are built exactly when every active reference builds its pair and both an upload and a download deployment exist; they hold the active references' evaluators and human evaluators in order, and the upload and download settings of the first deployments of those names |
| HumanConfig.AllDetailsShape | src/common/config_handler.py:90-196 | one details record per entry with an active evaluator, and the k-th record is the details of the k-th such entry |
| HumanConfig.DetailsFromAt | src/common/config_handler.py:90-196 | the k-th entry with an active evaluator, from any point of the loop on, is built into the record at the matching position of the result |
| HumanConfig.GetHumanEvaluatorInfo | src/common/config_handler.py:75-196 | the loop over entries builds exactly the details of the entries with an active evaluator |
| Metrics.FactFor | azureml/pipeline/components/code/write_metrics.py:109-139 | the fact row carries the metric's id, the row's identifiers and raw value, and the value in the numeric column for a numerical metric or the string column for a categorical one, the other column None |
| Metrics.MetricStore.Resolve | azureml/pipeline/components/code/write_metrics.py:74-97 | a known key leaves DIM_METRIC unchanged; a new key gains an "llm" metric named after the row with a fresh id; the row returned is the one stored under the key |
| Metrics.ProcessMetrics | azureml/pipeline/components/code/write_metrics.py:61-142 | one fact row per raw row, in order, each built against its key's DIM_METRIC row; existing DIM_METRIC rows are kept and every added one is a fresh "llm" metric for one of the keys; a failure means some key's metric has no id or no numerical or categorical type |
| Metrics.FactStore.WriteMetrics | azureml/pipeline/components/code/write_metrics.py:144-154 | the fact rows are inserted under (evaluation_dataset_id, metric_id) only where the key is still absent |
| Metrics.WriteMetricsKeeps | azureml/pipeline/components/code/write_metrics.py:152-153 | existing fact rows are kept, every written key is stored, and a new key holds the first fact row written with it |
| Metrics.TotalRowsAppend | azureml/pipeline/components/code/write_metrics.py:36-40 | the row total of two lists of files is the sum of their totals |
| Metrics.InputRowsAsWritten | azureml/pipeline/components/code/write_metrics.py:46-50 | the input counter as written is the row count of the last input file only |
| Metrics.CountInputRowsAsWritten | azureml/pipeline/components/code/write_metrics.py:46-50 | the input loop as written leaves the last file's row count |
| Metrics.InputRowsAsWrittenUndercounts | azureml/pipeline/components/code/write_metrics.py:50-54 | two input files of two and three rows fully processed into five output rows report three input rows and -2 failed rows |
| Metrics.ReadMetrics | azureml/pipeline/components/code/write_metrics.py:22-59 | corrected behaviour of the first Findings row (the input count accumulated): the raw metric rows of every output file in file and row order, and the row totals of the input and output files |
| Metrics.FailedRowsExact | azureml/pipeline/components/code/write_metrics.py:54-56 | with the input count accumulated, a run whose every input file produced as many output rows reports no failed rows |
| Dates.Weekday | postprod-eval/src/llmevalgrader/common/utils.py:23 | the weekday is one of the seven, Monday 0 to Sunday 6 (WeekdayNext and WeekdayAnchors tie it to the calendar) |
| Dates.FromMillis | src/llminspect/common/adls_handler.py:158-160 | a millisecond timestamp gives a whole-millisecond time within its day, and the day and time convert back to exactly that timestamp |
| Dates.WeekdayNext | postprod-eval/src/llmevalgrader/common/utils.py:23 | the day after a day is the next weekday, Sunday wrapping round to Monday |
| Dates.WeekdayAnchors | postprod-eval/src/llmevalgrader/common/utils.py:23 | 0001-01-01 and 2024-01-01 are Mondays and 1970-01-01 is a Thursday, as `datetime.weekday` says |
| Dates.GregorianStep | src/llminspect/common/adls_handler.py:158-160 | the closed Gregorian count of days before a year grows by that year's length, 366 in a leap year and 365 otherwise |
| Dates.DaysBeforeYearClosed | src/llminspect/common/adls_handler.py:158-160 | the days before a year, summed year by year, are 365 per year plus one per leap year of the Gregorian rules |
| Dates.EpochIsNewYear1970 | src/llminspect/common/adls_handler.py:158-160 | timestamp 0 is midnight of 1970-01-01 |
| Dates.CivilOf | src/llminspect/common/adls_handler.py:158-160 | the calendar date of a day number is a valid date with that day number |
| Dates.ToOrdinalInjective | src/llminspect/common/adls_handler.py:158-160 | two valid calendar dates with the same day number are the same date |
| Dates.CivilRoundTrip | src/llminspect/common/adls_handler.py:158-160 | a valid calendar date converts to its day number and back to itself |
| Dates.ParseDateTime | postprod-eval/src/llmevalgrader/common/utils.py:13 | a parsed "%Y/%m/%d %H:%M" text is a valid instant on a whole minute |
| Dates.FormatDateTime | postprod-eval/src/llmevalgrader/common/utils.py:13 | an instant of a year up to 9999 is laid out in sixteen characters |
| Dates.ParseFormat | postprod-eval/src/llmevalgrader/common/utils.py:13 | an instant on a whole minute of a year up to 9999, laid out in the format, parses back to itself |
| Scheduling.TimeRangeForScheduling | postprod-eval/src/llmevalgrader/common/utils.py:15-25 | the end is the last Saturday on or before the run day, at most six days back with no Saturday after it, and the start is the Sunday six days before it, both at the run's time of day |
| Scheduling.StartDateForPipelineRun | postprod-eval/src/llmevalgrader/common/utils.py:27-38 | "NA" after stripping gives midnight of the second-last Sunday; any other text is parsed as it stands |
| Scheduling.EndDateForPipelineRun | postprod-eval/src/llmevalgrader/common/utils.py:40-50 | "NA" after stripping gives the last microsecond of the last Saturday; any other text is parsed as it stands |
| Scheduling.DefaultWindow | postprod-eval/src/llmevalgrader/common/utils.py:37-50 | with both defaults the window runs from a Sunday to the following Saturday, ends at most six days before the run day, and holds an instant exactly when its day is one of those seven |
| Scheduling.UnstrippedStartRejected | postprod-eval/src/llmevalgrader/common/utils.py:38 | a date with a leading space is not stripped before parsing, so it is rejected |
| Partitions.PartitionPathInjective | src/llminspect/common/adls_handler.py:50-53 | different days have different partition patterns |
| Partitions.AsWrittenDayCount | src/llminspect/common/adls_handler.py:49-55 | the loop as written emits a pattern exactly when the start is not after the end |
| Partitions.PartitionPathsAsWritten | src/llminspect/common/adls_handler.py:46-55 | the loop as written emits one pattern per day from the start's day, advancing the start time by whole days while it is not after the end |
| Partitions.AsWrittenMissesLastDay | src/llminspect/common/adls_handler.py:49-55 | from 10:00 to 09:00 two days later the loop as written emits two patterns, neither of them the pattern of an instant at 08:00 on the last day |
| Partitions.PartitionPaths | src/llminspect/common/adls_handler.py:46-55 | the loop advancing by date emits one pattern per calendar day from the start's date to the end's date, ascending |
| Partitions.RangePaths | src/llminspect/common/adls_handler.py:46-55 | one pattern per calendar day of the range, ascending |
| Partitions.RangePathsCover | src/llminspect/common/adls_handler.py:46-55 | every instant of the range has its day's pattern among the range's patterns |
| Partitions.Glob | src/llminspect/common/adls_handler.py:57 | glob keeps exactly the listed files that match the parquet pattern of the directory |
| Partitions.GlobAll | src/llminspect/common/adls_handler.py:57 | the files gathered over the day directories are exactly the listed files matching one of the directories |
| Partitions.ReadFactTable | src/llminspect/common/adls_handler.py:82-104 | corrected behaviour of the third Findings row (one partition per calendar day): the read fails with FileNotFoundError exactly when no file of any day of the range exists |
| Partitions.ReadTaskTrackerFactTable | src/llminspect/common/adls_handler.py:106-126 | the read fails with FileNotFoundError exactly when no parquet file exists under batch_id={id} |
| Partitions.WithPartitionColumns | src/llminspect/common/adls_handler.py:158-160 | the row gains the year, month and day of its timestamp and is otherwise unchanged |
| Partitions.AddPartitionColumns | src/llminspect/common/adls_handler.py:146-161 | every row of the frame, in place, gains the year, month and day of its timestamp |
| Partitions.WrittenRowIsRead | src/llminspect/common/adls_handler.py:146-161 | a written row lands in its timestamp's day directory, which every range containing that instant reads |
| PrepData.WithMetricNames | azureml/pipeline/components/code/prep_data.py:83 | every row, in order, gains the metric list under metric_names and is otherwise unchanged |
| PrepData.FilterFilter | azureml/pipeline/components/code/prep_data.py:77-80 | two filters in a row keep the rows both conditions accept, in order |
| PrepData.FilterWithMetricNames | azureml/pipeline/components/code/prep_data.py:83-90 | setting metric_names does not change which rows the time filter keeps |
| PrepData.FilterKeepsExactly | azureml/pipeline/components/code/prep_data.py:58-92 | the filters keep exactly the rows of the application and type whose timestamp lies in the range, bounds included, in order, each with the metric list |
| PrepData.FormatOutput | azureml/pipeline/components/code/prep_data.py:95-116 | one record per row, holding only evaluation_dataset, a one-element list with the row |
| PrepData.PrepData | azureml/pipeline/components/code/prep_data.py:151-160 | the call fails exactly when no fact row is of the application and type inside the range; otherwise it is the formatted selection |
| Promptflow.ParseEvaluationData | azureml/promptflow/turn_relevance/parse_input.py:5-31 | the result is the first element exactly when the input is non-empty, and ValueError otherwise |
| Promptflow.ParseIgnoresTail | azureml/promptflow/turn_relevance/parse_input.py:28-29 | elements after the first never affect the result |
| Promptflow.FirstDigit | postprod-eval/azureml/promptflow/turn_relevance/parse_score.py:32-34 | the position found is the first digit of the answer; none means the answer has no digit |
| Promptflow.ScoreItems | postprod-eval/azureml/promptflow/turn_relevance/parse_score.py:26-40 | one score: the first digit of the answer with no error, or the copy's fallback with the gpt_relevance error recorded |
| Promptflow.Score | postprod-eval/azureml/promptflow/turn_relevance/parse_score.py:32-39 | an answer with a digit scores the value of its first digit, from 0 to 9; one without scores the fallback (0 in this copy, NaN in the older one) |
| Promptflow.ScoreTakesFirstDigit | postprod-eval/azureml/promptflow/turn_relevance/parse_score.py:32-35 | an answer of "10" scores 1 in both copies |
| Promptflow.ScoreOfNonNumber | src/azureml/promptflow/turn_relevance/parse_score.py:14-21 | an answer without digits scores 0 in the current copy and NaN in the older one |
| Promptflow.ConcatOutcome | postprod-eval/azureml/promptflow/turn_relevance/parse_score.py:42-51 | an undecodable metric_names fails with the row untouched; the call succeeds exactly when the first metric has a name and a version |
| Promptflow.ConcatResults | postprod-eval/azureml/promptflow/turn_relevance/parse_score.py:14-57 | the row is updated in place as ConcatOutcome says and, on success, returned as the only element of a list |
| Promptflow.ConcatResultsFields | src/azureml/promptflow/turn_relevance/parse_score.py:26-39 | a successful call removes metric_names, copies the first metric's name and version, writes the score and the raw answer, sets metric_type only in the current copy, and keeps every other key |
| DbQueries.RenderMarks | src/llminspect/common/db_handler.py:95-97 | with identifier text pieces, the statement text holds exactly one question mark per parameter marker |
| DbQueries.JoinMarks | src/llminspect/common/db_handler.py:95 | joining parts of one marker each gives one marker per part |
| DbQueries.MarkParts | src/llminspect/common/db_handler.py:95 | ", ".join("?" * n) is n lone markers |
| DbQueries.Attr | src/llminspect/common/db_handler.py:349 | an entity's attribute is found exactly when the entity has it, with the value stored under it |
| DbQueries.AttrAt | src/llminspect/common/db_handler.py:349 | in an entity with distinct attribute names, each attribute is found by its name |
| DbQueries.RowItems | src/llminspect/common/db_handler.py:149 | zip pairs each column name with the cell at the same position, up to the shorter of the two |
| DbQueries.RowDict | src/llminspect/common/db_handler.py:149 | the dictionary's keys are exactly the column names paired |
| DbQueries.RowDictLookup | src/llminspect/common/db_handler.py:149 | with distinct column names and a full row, every column maps to its own cell |
| DbQueries.AnswerRows | src/llminspect/common/db_handler.py:240-245 | one dictionary per fetched row, in order, each mapping every column to its cell when the names are distinct |
| DbQueries.ExecuteQuery | src/llminspect/common/db_handler.py:225-251 | the call fails exactly when markers and parameters differ in number; otherwise every fetched row comes back as a dictionary |
| DbQueries.InsertQuery | src/llminspect/common/db_handler.py:93-97 | the INSERT has one marker per attribute of the first entity |
| DbQueries.InsertIntoTable | src/llminspect/common/db_handler.py:84-109 | no entities raise IndexError; otherwise one parameter tuple per entity with its own values, in order, and a tuple binds exactly when its entity has as many attributes as the first |
| DbQueries.Equalities | src/llminspect/common/db_handler.py:342 | one "c = ?" part with one marker per column, shared by the UPDATE SET list and the WHERE condition (lines 130-134) |
| DbQueries.MergeArity | src/llminspect/common/db_handler.py:331-345 | the MERGE has one marker per unique column plus one per attribute when insert-only, two per attribute otherwise |
| DbQueries.UniqueValues | src/llminspect/common/db_handler.py:349 | the unique values exist exactly when the entity has every unique column, each the entity's value for it, in order |
| DbQueries.MergeBinding | src/llminspect/common/db_handler.py:348-358 | for a well-formed entity with the first entity's attributes, each marker of the MERGE receives the value of the column it stands for |
| DbQueries.UpsertIntoTable | src/llminspect/common/db_handler.py:313-368 | None or no entities do nothing; otherwise the MERGE over the first entity and one parameter tuple per entity, in order, failing exactly when some entity lacks a unique column |
| DbQueries.MergeParamsList | src/llminspect/common/db_handler.py:347-358 | the loop yields one parameter tuple per entity, in order, each the entity's unique values then its attribute values (twice unless insert-only), and fails exactly when some entity lacks a unique column |
| DbQueries.UpsertBinds | src/llminspect/common/db_handler.py:348-362 | every tuple of an upsert binds exactly when its entity has as many attributes as the first |
| DbQueries.WhereCondition | src/llminspect/common/db_handler.py:129-134 | the single-column condition is the same as the joined one, with one marker per column |
| DbQueries.SelectRowQuery | src/llminspect/common/db_handler.py:136-139 | the SELECT has one marker per condition column |
| DbQueries.PickColumnAsWritten | src/llminspect/common/db_handler.py:152-158 | the loop as written computes PickAsWritten |
| DbQueries.AsWrittenNeverFinds | src/llminspect/common/db_handler.py:155 | as written, a selected column name of two or more characters is never found |
| DbQueries.AsWrittenDropsSelectedColumn | src/llminspect/common/db_handler.py:155 | as written, a select of metric_id answering metric_id = 7 returns an empty dictionary, where the intended pick returns metric_id = 7 |
| DbQueries.PickColumn | src/llminspect/common/db_handler.py:149-158 | the pick holds only the selected name, and holds it exactly when some column has that name, with the value of the last such column, the one the row's dictionary keeps |
| DbQueries.RowDictLast | src/llminspect/common/db_handler.py:149 | the value `dict(zip(...))` keeps for a name is that of the last pair with the name |
| DbQueries.SelectRowByColumns | src/llminspect/common/db_handler.py:111-158 | corrected behaviour of the second Findings row (the selected column picked by its whole name): the call fails exactly when names and values differ in number, gives None exactly when no row comes back, and otherwise gives the first row answered, as a dictionary of all its columns, or, with a selected column, only that column with the value the row's dictionary holds for it (the last cell of a repeated name) |
| DbQueries.SelectColumnFound | src/llminspect/common/db_handler.py:143-158 | when the database answers the selected column, its value comes back under its name |
| DbQueries.ColumnValuesQuery | src/llminspect/common/db_handler.py:183-186 | the IN list has one marker per value |
| DbQueries.SelectByColumnValues | src/llminspect/common/db_handler.py:167-195 | the statement always binds, and the result is every row the database answers to "... WHERE column IN (?, ..., ?)" with the values, each zipped with the column names into a dictionary |
| DbQueries.AppMetricQuery | src/llminspect/common/db_handler.py:215 | three markers for start, end and application plus one per metric id |
| DbQueries.SelectByDateRangeForAppMetric | src/llminspect/common/db_handler.py:197-223 | the statement always binds, and the result is every row the database answers to the date, app and metric-id statement with start, end, app id and the metric ids as parameters, each as a dictionary |
| DbQueries.RowNumberWindow | src/llminspect/common/db_handler.py:282-289 | a row-number window never holds more rows than the ordered rows |
| DbQueries.PagesTile | src/llminspect/common/db_handler.py:281-289 | a page starting at row 1 or later holds page_size rows while the rows last, and consecutive pages tile the ordered rows |
| DbQueries.DateRangeQuery | src/llminspect/common/db_handler.py:280-294 | the dates are written into the statement, which has no parameter markers |
| DbQueries.SelectByDateRange | src/llminspect/common/db_handler.py:253-311 | every fetched row of the date-range statement, with or without pagination, is collected as a dictionary in order |
| TestCases.DistinctSnoc | weather-chatbot/eval/library/inner_loop/extract_test_cases.py:71 | a new component name is added at the end of the first-seen names and a known one adds nothing |
| TestCases.GroupedStepSeen | weather-chatbot/eval/library/inner_loop/extract_test_cases.py:73-74 | a test case of a component already grouped is appended to that group and every other group is unchanged |
| TestCases.GroupedStepNew | weather-chatbot/eval/library/inner_loop/extract_test_cases.py:71-72 | a test case of a new component adds a group of that one case at the end |
| TestCases.Consolidate | weather-chatbot/eval/library/inner_loop/extract_test_cases.py:55-76 | the loop leaves one group per distinct component, in first-seen order, holding that component's test cases in their order |
| TestCases.ValuesForOrder | weather-chatbot/eval/library/inner_loop/extract_test_cases.py:69-74 | a test case sits in its component's group after the component's earlier cases and before its later ones |
| TestCases.IsTestCaseConversation | weather-chatbot/eval/library/inner_loop/extract_test_cases.py:145-149 | with the wildcard key every conversation is selected; otherwise exactly those whose conversation_id is a key |
| TestCases.ValidateTestCasesToExtract | weather-chatbot/eval/library/inner_loop/extract_test_cases.py:152-175 | no error exactly when every key is a string and every value is the wildcard, an integer or a list of integers; a non-string key gives the key message, and with every key a string, a bad value gives the value message |
| TestCases.AllMessageIds | weather-chatbot/eval/library/inner_loop/extract_test_cases.py:114 | the ids exist exactly when every message has a messageId, one per message, in order |
| TestCases.FirstMatchFrom | weather-chatbot/eval/library/inner_loop/extract_test_cases.py:123-124 | the message found is the first one from the position on whose messageId equals the id; the earlier ones have a different messageId |
| TestCases.MakeTestCase | weather-chatbot/eval/library/inner_loop/extract_test_cases.py:125-132 | the test case exists exactly when the message has content and the conversation a customer_profile, and holds exactly the id "conversation-message", the content, the profile and, when the message has one, its context |
| TestCases.CasesFor | weather-chatbot/eval/library/inner_loop/extract_test_cases.py:121-140 | at most one test case per requested id, each under the component's name |
| TestCases.MessageIds | weather-chatbot/eval/library/inner_loop/extract_test_cases.py:110-119 | an integer is a one-id list, a list is taken as it is, and the wildcard is every message's id |
| TestCases.CreateTestCases | weather-chatbot/eval/library/inner_loop/extract_test_cases.py:99-142 | the method computes the test cases of the conversation for its entry |
| TestCases.BuildCases | weather-chatbot/eval/library/inner_loop/extract_test_cases.py:121-140 | the nested loop builds exactly CasesFor |
| TestCases.MatchMessage | weather-chatbot/eval/library/inner_loop/extract_test_cases.py:123-124 | the inner loop finds exactly the first matching message |
| TestCases.WildcardOverrides | weather-chatbot/eval/library/inner_loop/extract_test_cases.py:110-111 | with the wildcard key, the conversation's own entry does not matter |
| TestCases.ScalarIdSingleton | weather-chatbot/eval/library/inner_loop/extract_test_cases.py:116-119 | an integer entry yields at most one test case |
| TestCases.FirstMatchDistinct | weather-chatbot/eval/library/inner_loop/extract_test_cases.py:123-124 | with distinct message ids the message found for each id is its own |
| TestCases.CasesForAllMessages | weather-chatbot/eval/library/inner_loop/extract_test_cases.py:121-132 | with distinct ids, asking for the first n messages yields their n test cases in order |
| TestCases.WildcardExpands | weather-chatbot/eval/library/inner_loop/extract_test_cases.py:113-114 | a wildcard entry yields one test case per message, in order, each holding that message's content as its expected output |
| TestCases.SkipChunk | weather-chatbot/eval/library/inner_loop/extract_test_cases.py:86-94 | a chunk that fails to decode, is not a dictionary or is not selected contributes nothing |
| TestCases.FindTestCases | weather-chatbot/eval/library/inner_loop/extract_test_cases.py:79-96 | the loop over the marker-separated chunks computes ChunkCases of the split |
| Tables.JoinSplit | weather-chatbot/eval/library/inner_loop/extract_test_cases.py:84 | joining the pieces of a split with the separator gives back the text |
| Scorers.ExactMatchScore | weather-chatbot/eval/library/inner_loop/mlflow_helpers.py:6-12 | the score is 0 or 1, and 1 exactly when both values are falsy or they are equal |
| Scorers.ExactMatchSymmetric | weather-chatbot/eval/library/inner_loop/mlflow_helpers.py:6-12 | the score does not depend on which side is the expected output |
| Scorers.FalsyValuesMatch | weather-chatbot/eval/library/inner_loop/mlflow_helpers.py:8-9 | None matches "" and 0 matches an empty list, while "a" does not match "a " |
| Scorers.AnyStripEqual | weather-chatbot/eval/library/inner_loop/mlflow_helpers.py:22-24 | true means some string item strips to the target; an error means some item is not a string; over strings the result is whether some item strips to the target |
| Scorers.IsValueInList | weather-chatbot/eval/library/inner_loop/mlflow_helpers.py:15-27 | None against None scores 1; two strings score 1 exactly when equal after stripping; a list of strings scores 1 exactly when some item equals the stripped result; anything else scores 0; only a list against a string can fail |
| Scorers.SingletonListAgrees | weather-chatbot/eval/library/inner_loop/mlflow_helpers.py:15-27 | a one-element list of a string scores as that string |
| Scorers.ListOrderIrrelevant | weather-chatbot/eval/library/inner_loop/mlflow_helpers.py:22-24 | lists of the same strings in any order score alike |
| Tables.SplitPiecesFree | weather-chatbot/eval/library/inner_loop/extract_test_cases.py:84 | no piece of a split contains the separator |
| Chatbot.ExtractResult | weather-chatbot/src/agents/location/location_extractor.py:8 | the stub finds nothing exactly on the first call, and "98144" on every later one |
| Chatbot.LocationTurn | weather-chatbot/src/agents/location/location_agent.py:9-21 | the history is unchanged and the flag cleared; on the first call the location is kept and the reply is the assistant's, later the location becomes "98144" and the reply is None |
| Chatbot.Turn | weather-chatbot/src/orchestrator.py:9-22 | the history gains the user's message when it is truthy and then the reply as the assistant's message; the flag is cleared and the location follows the location agent |
| Chatbot.TurnReply | weather-chatbot/src/orchestrator.py:9-22 | one call adds one or two messages and keeps the earlier ones; the reply is the location assistant's exactly on the first call when it answers, and the weather agent's otherwise |
| Chatbot.ConversationFromStart | weather-chatbot/src/orchestrator.py:9-22 | from the start of the program, n calls give n replies and n assistant messages plus one per truthy user message; the location is None after one call and "98144" from the second on |
| Chatbot.LaterRepliesFromWeather | weather-chatbot/src/orchestrator.py:16-18 | in a conversation from the start every reply after the first comes from the weather agent, given the location "98144" |
| Chatbot.Context.constructor | weather-chatbot/src/context.py:3-5 | a new context has no messages and no location |
| Chatbot.Context.AddMessage | weather-chatbot/src/context.py:7-8 | the message is appended, wrapped in a one-element list, and the location is unchanged |
| Chatbot.Context.SetLocation | weather-chatbot/src/context.py:17-19 | the getter then returns the value, and the messages are unchanged |
| Chatbot.LocationExtractor.constructor | weather-chatbot/src/agents/location/location_extractor.py:1 | the module starts with first_call set |
| Chatbot.LocationExtractor.Extract | weather-chatbot/src/agents/location/location_extractor.py:6-10 | the answer is the stub's for the flag as it was, and the flag is then cleared |
| Chatbot.InvokeLocationAgent | weather-chatbot/src/agents/location/location_agent.py:9-21 | the reply and the new context and flag are those of LocationTurn on the old state |
| Chatbot.GetReply | weather-chatbot/src/orchestrator.py:9-22 | the reply and the new context and flag are those of Turn on the old state |

## Left out

- Floating point is not modelled. Scores and metric values are integers, and a NaN cell is None.
- `float(metric_value)` in the fact rows is not modelled. The value is carried as it was decoded.
- `fillna(value=0)` in `read_metrics` is not modelled. Metric cells are kept as read.
- Promptflow.Score: Python's `float` also accepts "inf" and "nan", which have no digit. The model sends every digit-free reply down the fallback path.
- Promptflow.ParseEvaluationData: the errors list that `parse_score` collects is never returned by the source. The model does not carry it either.
- Dates: years after 9999 are not rejected, unlike Python's `datetime`.
- The `str()` form of lists and dictionaries is not modelled. Only None, booleans, integers and strings are rendered.
- Python's equality across types (`1 == True`) is not modelled. Value equality is structural.
- The database is not modelled. The pyodbc connection, cursor and transaction become an injected answer function, and each statement is a sequence of SQL text pieces and parameter marks. The whitespace of line continuations is not kept.
- DbQueries.SelectRowQuery: `str(metric_version)` in the first select is not modelled. The version is bound as the value given.
- DbQueries.UpsertIntoTable: `unique_columns` is a Python set. The model takes its iteration order as given.
- DbQueries.RowDict: a result set with two columns of the same name is not modelled. The later column wins, as for a Python dict.
- `select_by_date_range_for_human_eval` and `fetch_latest_date_from_fact` are not part of this model.
- Metrics.ProcessMetrics: two runs inserting the same metric name at once (the DIM_METRIC race) are not modelled. Runs are sequential.
- JSON and YAML files are not parsed. Payloads, configuration documents and the `json.dumps` of metric names are taken as decoded values.
- File-system access is not modelled. Globs, `os.listdir`, reading parquet and writing files become parameters: the listed files and their decoded rows.
- The logger, mlflow metric logging and the argument parsers are not modelled.
- Dimensions.Groups: pandas `groupby` sorts groups by key. The model keeps first-seen order, which the following merges do not depend on.
- Surrogate UUIDs come from an injected sequence of fresh identifiers. Clocks are parameters.
- A malformed JSON payload makes the source raise. The model requires payloads to be decoded dictionaries.
- Config.ParentBotName: the recursive lookup of a parent bot carries a step bound, the number of apps. A configuration whose parent links form a cycle that reaches no bot recurses forever in Python, but gives None in the model. ParentBotNameFuelSuffices shows the bound cuts nothing else.
- Dates.ParseDateTime: CPython's strptime matches each numeric field with a Unicode-aware `\d` and the format's space with a Unicode-aware `\s+`, so it also accepts non-ASCII digits and non-ASCII whitespace; the model's run of whitespace between date and time is ASCII only, and its digits are ASCII only.
- Config.GetEvaluatorInfo: a missing evaluator definition makes the source fail with AttributeError on None. The model returns Err.
- TestCases.CreateTestCases and TestCases.FindTestCases require an extraction that passes ValidateTestCasesToExtract. The script's entry point runs that validation first.
- Entities.Transformer: `get_mapping_list` (src/llminspect/common/entities.py:185-192) only returns the stored mapping list. It is the `mappingList` field.
- Config: `get_app_info` (src/common/config_handler.py:198-224) builds App records the same way `get_evaluator_info` does. It is covered by AppEvaluators.
- Chatbot: the language-model assistants are given as functions of the history. These are the location assistant (agents/location/location_assistant.py), the weather agent and its extractors, the weather client and the LLM interface. None of them is part of this model. The weather agent is assumed to leave the context unchanged.
- Chatbot.Context.GetMessages: Python returns the stored list itself, so a caller could mutate it in place. The model returns the history as a value.
- Transform.FillMissing: a frame with no rows carries no columns in the model, so the columns `pd.concat` keeps from frames without rows, and their "NA" filling, are not captured. Transform.ConcatMembers and Transform.ConcatData share this.
- Transform.Concat: `pd.concat` of an empty list raises ValueError ("No objects to concatenate"). The model gives the empty frame.
- Dimensions.Lookup: `Series.map` on a non-unique index raises InvalidIndexError. The model returns the id of the first row with the key. The dimensions built here keep their keys unique (Dimensions.MergeKeepsUniqueKeys), so the case does not arise for them.
- Entities.StrField: the source stores a present value of any type, with no check. The model's entity fields are strings, so a dictionary holding a non-string there is rejected.
- Entities.MappingColumnFromDictExact: as for StrField, a field holding a non-string is rejected, where the source would build a column holding it.
- Promptflow.FirstDigit: the `\d` of `re.search` also matches non-ASCII decimal digits. The model matches only 0 to 9.
- Tables.Strip and Tables.ToLower: Python strips Unicode whitespace and lowercases every cased letter. The model strips ASCII whitespace and lowercases A to Z.
- Metrics and PrepData: reading a column a row lacks gives Null in the model, where pandas raises KeyError for a column the frame lacks.
- Promptflow.ConcatOutcome: a metric_names holding JSON that is not a list fails in the model with the row untouched. The source first removes metric_names and only then fails on `metrics[0]`.
- DbQueries.PickColumnAsWritten: the loop runs over the zipped column and cell pairs rather than over the dictionary built from them, so with a repeated column name it can take an earlier cell where the source takes the dictionary's later one.
- TestCases.ValidateTestCasesToExtract: the value error's " Offending value: " suffix with the `str` of the value is not modelled. The message stops before it.
- Concurrency and the Azure ML pipeline wiring are not modelled.

## Findings

| source | as written | input that shows it | evidently intended | confidence | as-written member | corrected member |
|---|---|---|---|---|---|---|
| azureml/pipeline/components/code/write_metrics.py:49 | each input file's row count replaces the running count, so the reported input rows are those of the last file | two input files of two and three rows, all five rows scored: three input rows and a negative number of failed rows are reported | the counts of all input files added up | not executed | Metrics.InputRowsAsWrittenUndercounts | Metrics.FailedRowsExact |
| src/llminspect/common/db_handler.py:155 | the selected column name is tested for membership in the first character of each result column name | a select of `metric_id` whose row answers `metric_id = 7` returns an empty dictionary | the selected column name compared with each result column name | not executed | DbQueries.AsWrittenDropsSelectedColumn | DbQueries.SelectColumnFound |
| src/llminspect/common/adls_handler.py:49-55 | the loop moves the start instant, time of day included, forward one day at a time while it is not after the end | from 10:00 on one day to 09:00 two days later, only two partition patterns are listed, and neither is the last day's | one partition per calendar day from the start's date to the end's date | not executed | Partitions.AsWrittenMissesLastDay | Partitions.RangePathsCover |
| llminspect/common/entities.py:31-35 | `from_dict` has neither `@classmethod` nor `@staticmethod`, so `MappingColumn.from_dict(d)` binds `d` to `cls` and raises TypeError for the missing `data` | `MappingColumn.from_dict(MappingColumn("query", "user_query", "string").to_dict())` | a class method that reads the three fields back, as the later copy has | not executed | Entities.UnboundFromDictRoundTripFails | Entities.MappingColumnRoundTrip |
