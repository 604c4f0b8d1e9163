/**
 * The punctuation-span planner of `Parse.__init__`: one scan over the tokens
 * that picks every non-punctuation token followed by punctuation and
 * extends a span through the whole run of punctuation after it. All spans
 * are planned before any of them is merged.
 */
module PunctuationSpans {
  import opened Tokens

  /** A half-open range [start, end) of token indices. */
  datatype IndexSpan = IndexSpan(start: nat, end: nat)

  /** What the planner records for one span: its character range and the trigger token's tag, lemma and entity type. */
  datatype SpanProps = SpanProps(startChar: nat, endChar: nat, tag: string, lemmaText: string, entType: string)

  /**
   * Token i starts a span when it is not punctuation and its right neighbour
   * is. The scan stops before the last token, which therefore never starts one.
   */
  predicate IsTrigger(doc: seq<Token>, i: nat)
    requires i < |doc|
  {
    i + 1 < |doc| && !doc[i].isPunct && doc[i + 1].isPunct
  }

  /** The first index at or after j that is not punctuation, or |doc| if there is none. */
  function RunEnd(doc: seq<Token>, j: nat): (r: nat)
    requires j <= |doc|
    ensures j <= r <= |doc|
    ensures forall k :: j <= k < r ==> doc[k].isPunct
    ensures r < |doc| ==> !doc[r].isPunct
    decreases |doc| - j
  {
    if j < |doc| && doc[j].isPunct then RunEnd(doc, j + 1) else j
  }

  /** The spans the scan plans at indices i and later, in scan order. */
  function SpansFrom(doc: seq<Token>, i: nat): (r: seq<IndexSpan>)
    requires i <= |doc|
    ensures |r| <= |doc| - i
    decreases |doc| - i
  {
    if i == |doc| then []
    else (if IsTrigger(doc, i) then [IndexSpan(i, RunEnd(doc, i + 1))] else []) + SpansFrom(doc, i + 1)
  }

  /** Every span planned from index i on starts at a trigger at or after i and ends where its run ends. */
  lemma {:induction false} SpansFromShape(doc: seq<Token>, i: nat)
    requires i <= |doc|
    ensures forall k :: 0 <= k < |SpansFrom(doc, i)| ==>
      var s := SpansFrom(doc, i)[k];
      i <= s.start < |doc| && IsTrigger(doc, s.start) && s.end == RunEnd(doc, s.start + 1)
    decreases |doc| - i
  {
    if i < |doc| {
      SpansFromShape(doc, i + 1);
    }
  }

  /** All spans of the document, in scan order. */
  function PlannedSpans(doc: seq<Token>): (r: seq<IndexSpan>)
    ensures ValidSpans(doc, r)
  {
    SpansFromShape(doc, 0);
    SpansFrom(doc, 0)
  }

  /**
   * Each planned span starts at a non-punctuation token that is not the last,
   * holds at least one punctuation token, holds nothing but punctuation after
   * its trigger, and is maximal: it ends at the first non-punctuation token
   * after the trigger or at the end of the document.
   */
  lemma PlannedSpanShape(doc: seq<Token>, k: nat)
    requires k < |PlannedSpans(doc)|
    ensures var s := PlannedSpans(doc)[k];
      && s.start + 2 <= s.end <= |doc|
      && s.start < |doc| - 1
      && !doc[s.start].isPunct
      && (forall j :: s.start < j < s.end ==> doc[j].isPunct)
      && (s.end < |doc| ==> !doc[s.end].isPunct)
  {
    SpansFromShape(doc, 0);
  }

  ghost predicate ValidSpans(doc: seq<Token>, ss: seq<IndexSpan>) {
    forall k :: 0 <= k < |ss| ==> ss[k].start < ss[k].end <= |doc|
  }

  /** The record of a span: the trigger's start to the last token's end, and the trigger's tag, lemma and entity type. */
  function Props(doc: seq<Token>, s: IndexSpan): SpanProps
    requires s.start < s.end <= |doc|
  {
    var w := doc[s.start];
    SpanProps(w.startChar, doc[s.end - 1].endChar, w.tag, w.lemmaText, w.entType)
  }

  /** The records of a list of spans, in the same order. */
  function PropsOf(doc: seq<Token>, ss: seq<IndexSpan>): seq<SpanProps>
    requires ValidSpans(doc, ss)
  {
    if ss == [] then [] else [Props(doc, ss[0])] + PropsOf(doc, ss[1..])
  }

  /** There is one record per span, and the k-th record is the k-th span's. */
  lemma {:induction false} PropsOfAt(doc: seq<Token>, ss: seq<IndexSpan>)
    requires ValidSpans(doc, ss)
    ensures |PropsOf(doc, ss)| == |ss|
    ensures forall k :: 0 <= k < |ss| ==> PropsOf(doc, ss)[k] == Props(doc, ss[k])
  {
    if ss != [] {
      PropsOfAt(doc, ss[1..]);
    }
  }

  /** Appending one span appends its record. */
  lemma {:induction false} PropsOfSnoc(doc: seq<Token>, ss: seq<IndexSpan>, s: IndexSpan)
    requires ValidSpans(doc, ss) && s.start < s.end <= |doc|
    ensures ValidSpans(doc, ss + [s])
    ensures PropsOf(doc, ss + [s]) == PropsOf(doc, ss) + [Props(doc, s)]
  {
    if ss != [] {
      assert (ss + [s])[1..] == ss[1..] + [s];
      PropsOfSnoc(doc, ss[1..], s);
    }
  }

  /**
   * Appending a span and then the rest is appending both at once. Kept as a
   * separate lemma so that the planner's loop proof stays stable across
   * solver seeds.
   */
  lemma SnocAssoc(done: seq<IndexSpan>, s: IndexSpan, rest: seq<IndexSpan>)
    ensures (done + [s]) + rest == done + ([s] + rest)
  {
  }

  /** The inner loop of the scan: advance past the punctuation run that begins at j. */
  method ScanRun(doc: seq<Token>, j: nat) returns (end: nat)
    requires j <= |doc|
    ensures end == RunEnd(doc, j)
  {
    end := j;
    while end < |doc| && doc[end].isPunct
      invariant j <= end <= |doc|
      invariant RunEnd(doc, end) == RunEnd(doc, j)
    {
      end := end + 1;
    }
  }

  /**
   * The scan of `Parse.__init__` that plans the spans: for every token but the last, skip it unless
   * it is a non-punctuation token followed by punctuation; otherwise walk
   * `end` over the punctuation run and record the span.
   */
  method PlanPunctuationSpans(doc: seq<Token>) returns (spans: seq<SpanProps>)
    ensures spans == PropsOf(doc, PlannedSpans(doc))
  {
    spans := [];
    ghost var done: seq<IndexSpan> := [];
    var i := 0;
    while i + 1 < |doc|
      invariant i <= |doc|
      invariant ValidSpans(doc, done)
      invariant done + SpansFrom(doc, i) == SpansFrom(doc, 0)
      invariant spans == PropsOf(doc, done)
    {
      var word := doc[i];
      if !word.isPunct && doc[i + 1].isPunct {
        var start := i;
        var end := ScanRun(doc, i + 1);
        assert SpansFrom(doc, i) == [IndexSpan(start, end)] + SpansFrom(doc, i + 1);
        PropsOfSnoc(doc, done, IndexSpan(start, end));
        SnocAssoc(done, IndexSpan(start, end), SpansFrom(doc, i + 1));
        spans := spans + [SpanProps(doc[start].startChar, doc[end - 1].endChar, word.tag, word.lemmaText, word.entType)];
        done := done + [IndexSpan(start, end)];
      } else {
        assert SpansFrom(doc, i) == SpansFrom(doc, i + 1);
      }
      i := i + 1;
    }
    assert SpansFrom(doc, i) == [];
    assert done + [] == done;
  }

  /** A trigger at or after i is the start of a span planned from i. */
  lemma {:induction false} TriggerPlanned(doc: seq<Token>, i: nat, j: nat)
    requires i <= j < |doc| && IsTrigger(doc, j)
    ensures exists k :: 0 <= k < |SpansFrom(doc, i)| && SpansFrom(doc, i)[k].start == j
    decreases j - i
  {
    var r := SpansFrom(doc, i);
    if i == j {
      assert r[0].start == j;
    } else {
      TriggerPlanned(doc, i + 1, j);
      var k :| 0 <= k < |SpansFrom(doc, i + 1)| && SpansFrom(doc, i + 1)[k].start == j;
      var head := if IsTrigger(doc, i) then [IndexSpan(i, RunEnd(doc, i + 1))] else [];
      assert r == head + SpansFrom(doc, i + 1);
      assert r[|head| + k].start == j;
    }
  }

  /**
   * A token starts a planned span exactly when it is a non-punctuation token,
   * not the last, whose right neighbour is punctuation; every other token
   * starts nothing.
   */
  lemma SpanStartsAreTriggers(doc: seq<Token>)
    ensures forall j :: 0 <= j < |doc| ==>
      (IsTrigger(doc, j) <==> exists k :: 0 <= k < |PlannedSpans(doc)| && PlannedSpans(doc)[k].start == j)
  {
    SpansFromShape(doc, 0);
    assert PlannedSpans(doc) == SpansFrom(doc, 0);
    forall j | 0 <= j < |doc| && IsTrigger(doc, j)
      ensures exists k :: 0 <= k < |PlannedSpans(doc)| && PlannedSpans(doc)[k].start == j
    {
      TriggerPlanned(doc, 0, j);
    }
  }

  /** Spans planned from i come in increasing order and do not overlap. */
  lemma {:induction false} SpansFromOrdered(doc: seq<Token>, i: nat)
    requires i <= |doc|
    ensures forall a, b :: 0 <= a < b < |SpansFrom(doc, i)| ==>
      SpansFrom(doc, i)[a].end <= SpansFrom(doc, i)[b].start
    decreases |doc| - i
  {
    if i < |doc| {
      SpansFromOrdered(doc, i + 1);
      var rest := SpansFrom(doc, i + 1);
      if IsTrigger(doc, i) {
        var e := RunEnd(doc, i + 1);
        var r := SpansFrom(doc, i);
        assert r == [IndexSpan(i, e)] + rest;
        SpansFromShape(doc, i + 1);
        forall b | 0 < b < |r| ensures e <= r[b].start {
          assert r[b] == rest[b - 1];
          // a later span starts at a non-punctuation token, which the run before e does not contain
          assert !doc[r[b].start].isPunct;
        }
      }
    }
  }

  /**
   * Planned spans come in increasing order of start and are pairwise
   * disjoint: each ends at or before the next one starts.
   */
  lemma PlannedSpansOrdered(doc: seq<Token>)
    ensures forall a, b :: 0 <= a < b < |PlannedSpans(doc)| ==>
      PlannedSpans(doc)[a].start < PlannedSpans(doc)[a].end <= PlannedSpans(doc)[b].start
  {
    SpansFromOrdered(doc, 0);
    var ps := PlannedSpans(doc);
    assert ps == SpansFrom(doc, 0);
    assert ValidSpans(doc, ps);
  }

  /** The scan plans nothing at a punctuation token, so it plans the same from anywhere inside a punctuation run. */
  lemma {:induction false} SkipRun(doc: seq<Token>, j: nat)
    requires j <= |doc|
    ensures SpansFrom(doc, j) == SpansFrom(doc, RunEnd(doc, j))
    decreases |doc| - j
  {
    if j < |doc| && doc[j].isPunct {
      assert SpansFrom(doc, j) == SpansFrom(doc, j + 1);
      SkipRun(doc, j + 1);
    }
  }
}
