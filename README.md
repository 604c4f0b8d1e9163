# spacy-api-docker: the logic of the `/dep` annotation, modelled in Dafny

The service wraps spaCy behind a small HTTP API. Most of it passes requests through to
the library. Three pieces of `app/main.py` have logic of their own, and this project models them:

- **Punctuation collapsing** in `Parse.__init__`, used when `collapse_punctuation` is set.
  One scan over the parsed document plans spans. A span starts at each non-punctuation token
  whose right neighbour is punctuation, and runs through the whole run of punctuation after it.
  For each span the scan records:
  - its character range;
  - the tag, lemma and entity type of the token that started it (its trigger).

  Every planned span is then merged into one token with `doc.merge`. A merge names its span by
  character offsets, and these stay valid while earlier merges shift token indices. The model
  proves this: planning first and then merging by offsets collapses exactly each trigger with
  its punctuation run.
- **`Parse.to_json`**, the displaCy payload:
  - `words`: one `{text, tag}` per token;
  - `arcs`: one arc per token that is not its own head, running from the lower to the higher
    of the token's and its head's indices, with a direction.
- **`get_model`**: the process-wide table that memoises `spacy.load`.

The parsed document is an input: a sequence of tokens, each with text, tag, lemma, entity type,
a punctuation flag, a dependency label, a head index, and start and end character offsets. The
model takes it together with the document text. It never runs the language model.

Modules:

| file | module | models |
|---|---|---|
| `wrappers.dfy` | `Wrappers` | `Option` |
| `tokens.dfy` | `Tokens` | tokens, their merge-visible surface, and a well-formed document |
| `punctuation_spans.dfy` | `PunctuationSpans` | the span planner (lines 129-143) |
| `span_merge.dfy` | `SpanMerge` | merging the planned spans (lines 144-145) and the collapsed document |
| `dependency_json.dfy` | `DependencyJson` | `Parse.to_json` (lines 151-173) |
| `model_registry.dfy` | `ModelRegistry` | the `get_model` cache (lines 13-18) |

The planner, the merge loop and the arc loop are methods with loops. Each is proved equal to a
recursive specification function (`PlannedSpans`, `ApplyAll`, `ArcsFrom`), and lemmas state what
the source promises about those functions. The cache is a class with a `map` field that
`GetModel` updates in place.

## Model

| member | source | states |
|---|---|---|
| PunctuationSpans.RunEnd | app/main.py:137-139 | the run scan from index j stops at the first non-punctuation token at or after j, or at the end of the document; every token it passes is punctuation |
| PunctuationSpans.IsTrigger | app/main.py:131-135 | the two `continue` tests of the scan over all tokens but the last: a token triggers a span when it is not punctuation, is not the last token, and its right neighbour is punctuation |
| PunctuationSpans.SpansFrom | app/main.py:131-139 | the scan from index i, as a recursive definition: a span from each trigger to the end of its punctuation run, in scan order; there are never more spans than tokens scanned |
| PunctuationSpans.ScanRun | app/main.py:137-139 | the inner `while` loop advancing `end` returns exactly `RunEnd` |
| PunctuationSpans.SpansFromShape | app/main.py:131-139 | every span planned from index i on starts at a trigger at or after i, and ends where the punctuation run after the trigger ends |
| PunctuationSpans.PlannedSpans | app/main.py:131-140 | every planned span is a range of indices inside the document |
| PunctuationSpans.PlannedSpanShape | app/main.py:131-140 | a planned span starts at a non-punctuation token that is not the last one, and holds at least one punctuation token; all its tokens after the trigger are punctuation; it is maximal, ending at the next non-punctuation token or at the end of the document |
| PunctuationSpans.TriggerPlanned | app/main.py:131-136 | every trigger at or after index i starts a span planned from i |
| PunctuationSpans.SpanStartsAreTriggers | app/main.py:131-135 | a token starts a span if and only if it is not the last token, is not punctuation, and its right neighbour is punctuation |
| PunctuationSpans.SpansFromOrdered | app/main.py:130-143 | spans planned from i on come in scan order, and each ends at or before the next one starts |
| PunctuationSpans.PlannedSpansOrdered | app/main.py:130-143 | the planned spans are non-empty, come in increasing start order, and are pairwise disjoint |
| PunctuationSpans.SkipRun | app/main.py:132-133 | punctuation tokens start nothing: the spans planned from the start of a punctuation run are those planned from its end |
| PunctuationSpans.PropsOfAt | app/main.py:140-143 | there is one record per span, in span order. Each record holds the trigger's start offset, the end offset of the span's last token, and the trigger's tag, lemma and entity type |
| PunctuationSpans.PropsOfSnoc | app/main.py:141-143 | appending a span appends its record |
| PunctuationSpans.Props | app/main.py:140-143 | the tuple appended for a span: the trigger's start offset, the end offset of the span's last token, and the trigger's tag, lemma and entity type |
| PunctuationSpans.PlanPunctuationSpans | app/main.py:129-143 | the planning loop returns the records of exactly the planned spans, in scan order |
| SpanMerge.IndexOf | app/main.py:145 | the lookup by offset finds the first token starting (or ending) at the offset, or reports that none does |
| SpanMerge.MergedSurface | app/main.py:145 | the token `doc.merge` puts in place of a span: the document text over the span's character range, and the recorded tag, lemma and entity type |
| SpanMerge.MergeByChars | app/main.py:145 | one `doc.merge` by offsets keeps the document well-formed and never adds tokens |
| SpanMerge.ReplaceKeepsWellFormed | app/main.py:145 | replacing tokens s..l by one token covering their joint range keeps the document ordered, disjoint and matching the text |
| SpanMerge.MergeAt | app/main.py:145 | in a well-formed document the offsets name tokens uniquely, so a merge whose offsets are token s's start and token l's end replaces exactly tokens s..l by the merged token |
| SpanMerge.ApplyAll | app/main.py:144-145 | applying a list of merges one after another keeps the document well-formed |
| SpanMerge.MergeSpans | app/main.py:144-145 | the merge loop applies the records in plan order, each to the result of the previous one |
| SpanMerge.MergeTrigger | app/main.py:136-145 | merging the record of a trigger's span replaces exactly the trigger and its punctuation run |
| SpanMerge.CollapseFrom | app/main.py:129-145 | the collapsed document defined directly on token indices: each trigger and its punctuation run become one merged token, and every other token is kept; it never has more tokens than the document |
| SpanMerge.KeptFrom | app/main.py:131-145 | the indices of the tokens the collapse keeps as they are, each inside the document, in order |
| SpanMerge.KeptInCollapse | app/main.py:129-145 | every kept token appears unchanged in the collapsed document |
| SpanMerge.KeptPunctuationLeads | app/main.py:131-145 | the only punctuation tokens the collapse keeps on their own are those of a leading run: every punctuation token that follows a non-punctuation token is merged into a span |
| SpanMerge.MergesCollapseFrom | app/main.py:129-145 | with the tokens before i already final, merging the spans planned from i yields those tokens followed by the collapse from i |
| SpanMerge.MergesCollapseTrigger | app/main.py:129-145 | the same statement, for the case where token i is a trigger |
| SpanMerge.MergesCollapseOther | app/main.py:129-145 | the same statement, for the case where token i is not a trigger |
| SpanMerge.CollapsingMergesPlannedSpans | app/main.py:129-145 | planning all spans first and then merging them by offsets gives exactly the direct collapse: each trigger and its run become one token, and every other token is kept |
| SpanMerge.CollapsedWellFormed | app/main.py:129-145 | the collapsed document is again ordered and disjoint, and each token's text is its slice of the text |
| SpanMerge.CollapsedLength | app/main.py:129-145 | collapsing leaves as many tokens as the document has, less n - 1 for each planned span of n tokens |
| SpanMerge.CollapseWithoutTriggers | app/main.py:131-145 | a document with no non-punctuation token followed by punctuation is left unchanged |
| SpanMerge.CollapsePunctuation | app/main.py:129-145 | the document is the collapsed one when `collapse_punctuation` is set, and the unchanged one otherwise |
| DependencyJson.Dependents | app/main.py:154-172 | the indices, from i on, of tokens that are not their own head: strictly increasing, and containing every such index |
| DependencyJson.ArcOf | app/main.py:155-172 | the loop body for one token: a left arc when the token precedes its head, a right arc when it follows it, and none for a root |
| DependencyJson.ArcsFrom | app/main.py:153-172 | the `arcs` list from index i on, in token order; never more arcs than tokens |
| DependencyJson.ArcsFromDependents | app/main.py:154-172 | the arcs from index i on are one per non-root token, in token order. Each carries the token's label and text, has start < end, has start and end equal to the lower and higher of the token's and its head's indices, and points left exactly when the token precedes its head |
| DependencyJson.ArcsOfDocument | app/main.py:154-172 | the whole arc list has one arc per non-root token, in increasing token order, drawn as above; a token gets an arc if and only if it is not its own head |
| DependencyJson.ArcsInsideDocument | app/main.py:155-172 | when every head index lies inside the document, every arc has start < end < the document length |
| DependencyJson.ToJson | app/main.py:151-173 | `words` has one entry per token, in order, holding its text and tag; the arc loop returns exactly the arc list characterised above |
| ModelRegistry.ModelCache.constructor | app/main.py:13 | the table starts empty and nothing has been loaded |
| ModelRegistry.ModelCache.GetModel | app/main.py:15-18 | the result is what the loader gives for the name. A cached name returns its stored model, loads nothing and changes nothing. An uncached name calls the loader exactly once; on success it adds that entry only, and on failure it leaves the table unchanged. The cache stays coherent: every entry is its loader result, and a successfully loaded name is never loaded again |

## Left out

- The falcon resources, routing, JSON bodies, headers and status codes (app/main.py:45-123, 190-218) are left out: they are request plumbing with no logic of their own.
- `spacy.load` and `nlp(text)` are not modelled. The parsed document is an input. The loader is an arbitrary function from a name to a model, or to `None` when loading raises.
- ModelRegistry.ModelCache.GetModel: the loader is taken to be deterministic. A failed load is modelled as a `None` result that leaves the table unchanged, not as a propagated exception.
- `doc.merge` is modelled on the token surface only: text, tag, lemma, entity type and character range. Its lookup of the tokens at the span's offsets is modelled as a first-match scan (`SpanMerge.IndexOf`). What is left out is how the library re-points heads and dependency labels, and the punctuation flag of the merged token.
- SpanMerge.CollapseFrom: that collapsing a second time changes nothing is not stated, because the punctuation flag of a merged token is not modelled. `SpanMerge.KeptPunctuationLeads` states what the model does support: only a leading run of punctuation survives unmerged.
- SpanMerge.MergeByChars: when the token ending at the end offset comes before the token starting at the start offset, the merge is treated as doing nothing. This case never arises for the planned spans of a well-formed document.
- The `Tokens.WellFormed` property of a document is assumed as a precondition of the merge members, not derived. It says that tokens come in text order, do not overlap, cover non-empty slices, and have those slices as their text. This is what the library guarantees of a parse.
- Noun-phrase collapsing (`collapse_phrases`, app/main.py:147-149) is left out: the noun chunks come from the library's iterator.
- `get_dep_types`, `get_ent_types`, `get_pos_types` (app/main.py:21-42) and `Entities.to_json` (app/main.py:180-188) are left out: they only read library data.
- The preload loop and environment parsing (app/main.py:11, 208-210) and the download script are left out: they are configuration.
- Concurrent first loads into the cache are left out: the cache is modelled single-threaded.
- JSON field names are modelled as datatype fields: `dir` is a `Direction`, and `label` is the field `arcLabel`.
