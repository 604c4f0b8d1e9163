/**
 * Applying the planned punctuation spans (`doc.merge`, once per span, in
 * plan order). Each merge names its span by character offsets, which stay
 * valid while earlier merges shift token indices. A merge is modelled on
 * the surface of the tokens only: the merged token gets the span's
 * character range, the document text over that range, and the recorded tag,
 * lemma and entity type. How the library re-points heads is not modelled.
 */
module SpanMerge {
  import opened Wrappers
  import opened Tokens
  import opened PunctuationSpans

  /** A token's start offset, or its end offset when `atEnd`. */
  function Offset(w: Surface, atEnd: bool): nat {
    if atEnd then w.endChar else w.startChar
  }

  /**
   * The first index at or after `from` of a token that starts (or, when
   * `atEnd`, ends) at offset c: the library's token-by-offset lookup, a
   * linear scan.
   */
  function IndexOf(ws: seq<Surface>, c: nat, atEnd: bool, from: nat): (r: Option<nat>)
    requires from <= |ws|
    ensures r.Some? ==> from <= r.value < |ws| && Offset(ws[r.value], atEnd) == c
    ensures r.Some? ==> forall k :: from <= k < r.value ==> Offset(ws[k], atEnd) != c
    ensures r.None? ==> forall k :: from <= k < |ws| ==> Offset(ws[k], atEnd) != c
    decreases |ws| - from
  {
    if from == |ws| then None
    else if Offset(ws[from], atEnd) == c then Some(from)
    else IndexOf(ws, c, atEnd, from + 1)
  }

  /** The token a merge puts in place of a span. */
  function MergedSurface(text: string, sp: SpanProps): Surface
    requires sp.startChar <= sp.endChar <= |text|
  {
    Surface(text[sp.startChar..sp.endChar], sp.tag, sp.lemmaText, sp.entType, sp.startChar, sp.endChar)
  }

  /** Replacing tokens s..l of a well-formed document by one token with their joint range keeps it well-formed. */
  lemma ReplaceKeepsWellFormed(text: string, ws: seq<Surface>, s: nat, l: nat, m: Surface)
    requires WellFormed(text, ws)
    requires s <= l < |ws|
    requires m.startChar == ws[s].startChar && m.endChar == ws[l].endChar
    requires m.startChar < m.endChar <= |text| && m.text == text[m.startChar..m.endChar]
    ensures WellFormed(text, ws[..s] + [m] + ws[l + 1..])
  {
    var r := ws[..s] + [m] + ws[l + 1..];
    assert s < l ==> InOrder(ws, s, l);
    assert |r| == |ws| - (l - s);
    forall k | 0 <= k < |r| && k != s ensures r[k] == ws[if k < s then k else k + l - s] {
      if k > s {
        assert r[k] == ws[l + 1..][k - s - 1];
      }
    }
    forall a, b | 0 <= a < b < |r| ensures InOrder(r, a, b) {
      var b' := if b < s then b else b + l - s;
      if a < s {
        assert r[a] == ws[a];
        if b == s {
          assert InOrder(ws, a, s);
        } else {
          assert r[b] == ws[b'] && InOrder(ws, a, b');
        }
      } else if a == s {
        assert r[b] == ws[b'];
        assert InOrder(ws, l, b');
      } else {
        assert r[a] == ws[a + l - s] && r[b] == ws[b'];
        assert InOrder(ws, a + l - s, b');
      }
    }
  }

  /**
   * `doc.merge(start_char, end_char, tag, lemma, ent_type)`: find the first
   * token that starts at the span's start offset and the first that ends at
   * its end offset, and replace the tokens between them, both included, by
   * one token. When no token boundary matches, the merge does nothing.
   */
  function MergeByChars(text: string, ws: seq<Surface>, sp: SpanProps): (r: seq<Surface>)
    requires WellFormed(text, ws)
    ensures WellFormed(text, r)
    ensures |r| <= |ws|
  {
    var s := IndexOf(ws, sp.startChar, false, 0);
    var l := IndexOf(ws, sp.endChar, true, 0);
    if s.Some? && l.Some? && s.value <= l.value then
      assert s.value < l.value ==> InOrder(ws, s.value, l.value);
      ReplaceKeepsWellFormed(text, ws, s.value, l.value, MergedSurface(text, sp));
      ws[..s.value] + [MergedSurface(text, sp)] + ws[l.value + 1..]
    else
      ws
  }

  /**
   * In a well-formed document the offsets name tokens uniquely: when token s
   * starts and token l ends at the span's offsets, the merge replaces
   * exactly tokens s..l.
   */
  lemma MergeAt(text: string, ws: seq<Surface>, s: nat, l: nat, sp: SpanProps)
    requires WellFormed(text, ws)
    requires s <= l < |ws| && ws[s].startChar == sp.startChar && ws[l].endChar == sp.endChar
    ensures sp.startChar < sp.endChar <= |text|
    ensures MergeByChars(text, ws, sp) == ws[..s] + [MergedSurface(text, sp)] + ws[l + 1..]
  {
    assert s < l ==> InOrder(ws, s, l);
    var fs, fl := IndexOf(ws, sp.startChar, false, 0), IndexOf(ws, sp.endChar, true, 0);
    assert Offset(ws[s], false) == sp.startChar && Offset(ws[l], true) == sp.endChar;
    forall k | 0 <= k < s ensures Offset(ws[k], false) != sp.startChar {
      assert InOrder(ws, k, s);
    }
    forall k | 0 <= k < l ensures Offset(ws[k], true) != sp.endChar {
      assert InOrder(ws, k, l);
    }
    assert fs == Some(s);
    assert fl == Some(l);
  }

  /** The merges at the end of the punctuation pass of `Parse.__init__`, applied one after another. */
  function ApplyAll(text: string, ws: seq<Surface>, spans: seq<SpanProps>): (r: seq<Surface>)
    requires WellFormed(text, ws)
    ensures WellFormed(text, r)
    decreases |spans|
  {
    if spans == [] then ws else ApplyAll(text, MergeByChars(text, ws, spans[0]), spans[1..])
  }

  /**
   * Merging a list of spans merges its first span, then the rest. Kept as a
   * separate lemma, like the regrouping lemmas below, so that the inductive
   * proofs stay stable across solver seeds.
   */
  lemma ApplyAllCons(text: string, ws: seq<Surface>, sp: SpanProps, rest: seq<SpanProps>)
    requires WellFormed(text, ws)
    ensures ApplyAll(text, ws, [sp] + rest) == ApplyAll(text, MergeByChars(text, ws, sp), rest)
  {
    assert ([sp] + rest)[1..] == rest;
  }

  /** The merge loop of `Parse.__init__`: merge the planned spans into the document in plan order. */
  method MergeSpans(text: string, ws: seq<Surface>, spans: seq<SpanProps>) returns (r: seq<Surface>)
    requires WellFormed(text, ws)
    ensures r == ApplyAll(text, ws, spans)
  {
    r := ws;
    var k := 0;
    while k < |spans|
      invariant k <= |spans|
      invariant WellFormed(text, r)
      invariant ApplyAll(text, r, spans[k..]) == ApplyAll(text, ws, spans)
    {
      assert spans[k..][1..] == spans[k + 1..];
      r := MergeByChars(text, r, spans[k]);
      k := k + 1;
    }
    assert spans[k..] == [];
  }

  /** In a well-formed document, a token's start precedes the end of any token at or after it, inside the text. */
  lemma DocRange(text: string, doc: seq<Token>, a: nat, b: nat)
    requires WellFormed(text, Surfaces(doc)) && a <= b < |doc|
    ensures doc[a].startChar < doc[b].endChar <= |text|
  {
    var ws := Surfaces(doc);
    assert ws[a] == SurfaceOf(doc[a]) && ws[b] == SurfaceOf(doc[b]);
    if a < b {
      assert InOrder(ws, a, b);
    }
  }

  /**
   * The punctuation-collapsed document, defined directly on token indices:
   * walking from index i, a trigger and the punctuation run after it become
   * one merged token and the walk resumes after the run; any other token is
   * kept as it is.
   */
  function CollapseFrom(text: string, doc: seq<Token>, i: nat): (r: seq<Surface>)
    requires i <= |doc| && WellFormed(text, Surfaces(doc))
    ensures |r| <= |doc| - i
    decreases |doc| - i
  {
    if i == |doc| then []
    else if IsTrigger(doc, i) then
      var e := RunEnd(doc, i + 1);
      DocRange(text, doc, i, e - 1);
      [MergedSurface(text, Props(doc, IndexSpan(i, e)))] + CollapseFrom(text, doc, e)
    else
      [SurfaceOf(doc[i])] + CollapseFrom(text, doc, i + 1)
  }

  /** Moving token i from the unprocessed suffix to the finished prefix. */
  lemma ShiftOne(P: seq<Surface>, S: seq<Surface>, i: nat)
    requires i < |S|
    ensures P + S[i..] == (P + [S[i]]) + S[i + 1..]
  {
    assert S[i..] == [S[i]] + S[i + 1..];
  }

  /** Regrouping a finished prefix, one token and the rest. */
  lemma ConsAssoc(P: seq<Surface>, m: Surface, tail: seq<Surface>)
    ensures (P + [m]) + tail == P + ([m] + tail)
  {
  }

  /** Merging the span of a trigger at i, by its offsets, replaces exactly the trigger and its run. */
  lemma MergeTrigger(text: string, doc: seq<Token>, P: seq<Surface>, i: nat)
    requires i < |doc| && IsTrigger(doc, i)
    requires WellFormed(text, Surfaces(doc))
    requires WellFormed(text, P + Surfaces(doc)[i..])
    ensures var e := RunEnd(doc, i + 1);
      var props := Props(doc, IndexSpan(i, e));
      && props.startChar < props.endChar <= |text|
      && MergeByChars(text, P + Surfaces(doc)[i..], props)
         == P + [MergedSurface(text, props)] + Surfaces(doc)[e..]
  {
    var S := Surfaces(doc);
    var cur := P + S[i..];
    var e := RunEnd(doc, i + 1);
    var props := Props(doc, IndexSpan(i, e));
    var l := |P| + (e - 1 - i);
    assert cur[|P|] == SurfaceOf(doc[i]);
    assert cur[l] == SurfaceOf(doc[e - 1]);
    MergeAt(text, cur, |P|, l, props);
    assert cur[..|P|] == P;
    assert cur[l + 1..] == S[e..];
  }

  /**
   * Merging, by character offsets, the spans planned from index i into a
   * document whose tokens before i are already final (P) gives P followed by
   * the direct collapse from i.
   */
  lemma {:induction false} MergesCollapseFrom(text: string, doc: seq<Token>, P: seq<Surface>, i: nat)
    requires i <= |doc|
    requires WellFormed(text, Surfaces(doc))
    requires WellFormed(text, P + Surfaces(doc)[i..])
    ensures ValidSpans(doc, SpansFrom(doc, i))
    ensures ApplyAll(text, P + Surfaces(doc)[i..], PropsOf(doc, SpansFrom(doc, i))) == P + CollapseFrom(text, doc, i)
    decreases |doc| - i, 1
  {
    SpansFromShape(doc, i);
    if i == |doc| {
      assert P + Surfaces(doc)[i..] == P + [];
    } else if IsTrigger(doc, i) {
      MergesCollapseTrigger(text, doc, P, i);
    } else {
      MergesCollapseOther(text, doc, P, i);
    }
  }

  /** The induction step at a trigger: its merge takes the trigger and its run, and the walk resumes after the run. */
  lemma {:induction false} MergesCollapseTrigger(text: string, doc: seq<Token>, P: seq<Surface>, i: nat)
    requires i < |doc| && IsTrigger(doc, i)
    requires WellFormed(text, Surfaces(doc))
    requires WellFormed(text, P + Surfaces(doc)[i..])
    requires ValidSpans(doc, SpansFrom(doc, i))
    ensures ApplyAll(text, P + Surfaces(doc)[i..], PropsOf(doc, SpansFrom(doc, i))) == P + CollapseFrom(text, doc, i)
    decreases |doc| - i, 0
  {
    var S := Surfaces(doc);
    var cur := P + S[i..];
    var e := RunEnd(doc, i + 1);
    var props := Props(doc, IndexSpan(i, e));
    var rest := SpansFrom(doc, e);
    SpansFromShape(doc, e);
    assert PropsOf(doc, SpansFrom(doc, i)) == [props] + PropsOf(doc, rest) by {
      assert SpansFrom(doc, i) == [IndexSpan(i, e)] + SpansFrom(doc, i + 1);
      SkipRun(doc, i + 1);
    }
    DocRange(text, doc, i, e - 1);
    var P' := P + [MergedSurface(text, props)];
    assert WellFormed(text, P' + S[e..]) by {
      MergeTrigger(text, doc, P, i);
    }
    assert ApplyAll(text, cur, [props] + PropsOf(doc, rest)) == ApplyAll(text, P' + S[e..], PropsOf(doc, rest)) by {
      MergeTrigger(text, doc, P, i);
      ApplyAllCons(text, cur, props, PropsOf(doc, rest));
    }
    MergesCollapseFrom(text, doc, P', e);
    var tail := CollapseFrom(text, doc, e);
    assert CollapseFrom(text, doc, i) == [MergedSurface(text, props)] + tail;
    assert ApplyAll(text, cur, PropsOf(doc, SpansFrom(doc, i))) == P' + tail;
    ConsAssoc(P, MergedSurface(text, props), tail);
  }

  /** The induction step at any other token: it is kept, and the walk moves to the next token. */
  lemma {:induction false} MergesCollapseOther(text: string, doc: seq<Token>, P: seq<Surface>, i: nat)
    requires i < |doc| && !IsTrigger(doc, i)
    requires WellFormed(text, Surfaces(doc))
    requires WellFormed(text, P + Surfaces(doc)[i..])
    requires ValidSpans(doc, SpansFrom(doc, i))
    ensures ApplyAll(text, P + Surfaces(doc)[i..], PropsOf(doc, SpansFrom(doc, i))) == P + CollapseFrom(text, doc, i)
    decreases |doc| - i, 0
  {
    var S := Surfaces(doc);
    assert SpansFrom(doc, i) == SpansFrom(doc, i + 1);
    var P' := P + [S[i]];
    ShiftOne(P, S, i);
    MergesCollapseFrom(text, doc, P', i + 1);
    var tail := CollapseFrom(text, doc, i + 1);
    assert CollapseFrom(text, doc, i) == [S[i]] + tail;
    ConsAssoc(P, S[i], tail);
  }

  /**
   * Planning every span first and then merging them one by one by character
   * offset, although each merge shifts the indices of the tokens after it,
   * collapses exactly each trigger with its punctuation run.
   */
  lemma CollapsingMergesPlannedSpans(text: string, doc: seq<Token>)
    requires WellFormed(text, Surfaces(doc))
    ensures ApplyAll(text, Surfaces(doc), PropsOf(doc, PlannedSpans(doc))) == CollapseFrom(text, doc, 0)
  {
    assert Surfaces(doc)[0..] == [] + Surfaces(doc)[0..];
    MergesCollapseFrom(text, doc, [], 0);
  }

  /** The collapsed document is again well-formed: ordered, disjoint tokens whose text is their slice. */
  lemma CollapsedWellFormed(text: string, doc: seq<Token>)
    requires WellFormed(text, Surfaces(doc))
    ensures WellFormed(text, CollapseFrom(text, doc, 0))
  {
    CollapsingMergesPlannedSpans(text, doc);
  }

  /** How many tokens the spans remove: a span of n tokens becomes one. */
  function Absorbed(spans: seq<IndexSpan>): int {
    if spans == [] then 0 else spans[0].end - spans[0].start - 1 + Absorbed(spans[1..])
  }

  /** A span in front absorbs its own tokens in addition to the rest's. */
  lemma AbsorbedCons(s: IndexSpan, rest: seq<IndexSpan>)
    ensures Absorbed([s] + rest) == s.end - s.start - 1 + Absorbed(rest)
  {
    assert ([s] + rest)[1..] == rest;
  }

  /** Collapsing from i leaves the tokens from i on less those the planned spans absorb. */
  lemma {:induction false} CollapsedLength(text: string, doc: seq<Token>, i: nat)
    requires i <= |doc| && WellFormed(text, Surfaces(doc))
    ensures |CollapseFrom(text, doc, i)| == |doc| - i - Absorbed(SpansFrom(doc, i))
    decreases |doc| - i
  {
    if i < |doc| {
      if IsTrigger(doc, i) {
        var e := RunEnd(doc, i + 1);
        SkipRun(doc, i + 1);
        assert SpansFrom(doc, i) == [IndexSpan(i, e)] + SpansFrom(doc, e);
        AbsorbedCons(IndexSpan(i, e), SpansFrom(doc, e));
        assert |CollapseFrom(text, doc, i)| == 1 + |CollapseFrom(text, doc, e)|;
        CollapsedLength(text, doc, e);
      } else {
        assert SpansFrom(doc, i) == SpansFrom(doc, i + 1);
        CollapsedLength(text, doc, i + 1);
      }
    }
  }

  /** Without a non-punctuation token followed by punctuation from i on, collapsing changes nothing. */
  lemma {:induction false} CollapseWithoutTriggers(text: string, doc: seq<Token>, i: nat)
    requires i <= |doc| && WellFormed(text, Surfaces(doc))
    requires forall j :: i <= j < |doc| ==> !IsTrigger(doc, j)
    ensures CollapseFrom(text, doc, i) == Surfaces(doc)[i..]
    decreases |doc| - i
  {
    if i < |doc| {
      CollapseWithoutTriggers(text, doc, i + 1);
      assert Surfaces(doc)[i..] == [Surfaces(doc)[i]] + Surfaces(doc)[i + 1..];
    }
  }

  /**
   * The indices, from i on, of the tokens the collapse keeps as they are:
   * the walk of `CollapseFrom`, recording each token that no span absorbs.
   */
  function KeptFrom(doc: seq<Token>, i: nat): (r: seq<nat>)
    requires i <= |doc|
    ensures forall j :: 0 <= j < |r| ==> i <= r[j] < |doc|
    decreases |doc| - i
  {
    if i == |doc| then []
    else if IsTrigger(doc, i) then KeptFrom(doc, RunEnd(doc, i + 1))
    else [i] + KeptFrom(doc, i + 1)
  }

  /** Every token the walk keeps appears unchanged in the collapsed document. */
  lemma {:induction false} KeptInCollapse(text: string, doc: seq<Token>, i: nat)
    requires i <= |doc| && WellFormed(text, Surfaces(doc))
    ensures forall j :: 0 <= j < |KeptFrom(doc, i)| ==>
      SurfaceOf(doc[KeptFrom(doc, i)[j]]) in CollapseFrom(text, doc, i)
    decreases |doc| - i
  {
    if i < |doc| {
      if IsTrigger(doc, i) {
        KeptInCollapse(text, doc, RunEnd(doc, i + 1));
      } else {
        KeptInCollapse(text, doc, i + 1);
        var kept := KeptFrom(doc, i);
        assert kept == [i] + KeptFrom(doc, i + 1);
        forall j | 0 < j < |kept| ensures kept[j] == KeptFrom(doc, i + 1)[j - 1] { }
      }
    }
  }

  /**
   * No punctuation token that follows a non-punctuation token survives the
   * collapse on its own: every punctuation token the walk from i keeps lies
   * in the run of punctuation at i, before any word.
   */
  lemma {:induction false} KeptPunctuationLeads(doc: seq<Token>, i: nat)
    requires i <= |doc|
    ensures forall j :: 0 <= j < |KeptFrom(doc, i)| && doc[KeptFrom(doc, i)[j]].isPunct ==>
      KeptFrom(doc, i)[j] < RunEnd(doc, i)
    decreases |doc| - i
  {
    if i < |doc| {
      if IsTrigger(doc, i) {
        var e := RunEnd(doc, i + 1);
        KeptPunctuationLeads(doc, e);
        assert e == |doc| || !doc[e].isPunct;
      } else {
        KeptPunctuationLeads(doc, i + 1);
        var kept := KeptFrom(doc, i);
        assert kept == [i] + KeptFrom(doc, i + 1);
        forall j | 0 < j < |kept| ensures kept[j] == KeptFrom(doc, i + 1)[j - 1] { }
        if !doc[i].isPunct {
          assert i + 1 == |doc| || !doc[i + 1].isPunct;
        }
      }
    }
  }

  /**
   * The punctuation pass of `Parse.__init__` on the surface
   * of the document: when enabled, plan all spans, then merge them.
   */
  method CollapsePunctuation(text: string, doc: seq<Token>, collapsePunctuation: bool) returns (ws: seq<Surface>)
    requires WellFormed(text, Surfaces(doc))
    ensures ws == if collapsePunctuation then CollapseFrom(text, doc, 0) else Surfaces(doc)
  {
    ws := Surfaces(doc);
    if collapsePunctuation {
      var spans := PlanPunctuationSpans(doc);
      ws := MergeSpans(text, ws, spans);
      CollapsingMergesPlannedSpans(text, doc);
    }
  }
}
