/**
 * `Parse.to_json`: the display form of a parsed document, a list of words
 * and a list of dependency arcs between them.
 */
module DependencyJson {
  import opened Wrappers
  import opened Tokens

  /** One entry of `words`. */
  datatype Word = Word(text: string, tag: string)

  /** Which way an arc points: `Left` when the dependent precedes its head. */
  datatype Direction = Left | Right

  /** One entry of `arcs`, between token indices start < end. */
  datatype Arc = Arc(start: nat, end: nat, arcLabel: string, text: string, dir: Direction)

  /** The arc token i contributes: none for a root, else from the lower to the higher of its own and its head's index. */
  function ArcOf(doc: seq<Token>, i: nat): Option<Arc>
    requires i < |doc|
  {
    var word := doc[i];
    if i < word.head then Some(Arc(i, word.head, word.dep, word.text, Left))
    else if i > word.head then Some(Arc(word.head, i, word.dep, word.text, Right))
    else None
  }

  /** The arcs of tokens i and later, in token order. */
  function ArcsFrom(doc: seq<Token>, i: nat): (r: seq<Arc>)
    requires i <= |doc|
    ensures |r| <= |doc| - i
    decreases |doc| - i
  {
    if i == |doc| then []
    else (match ArcOf(doc, i) case Some(a) => [a] case None => []) + ArcsFrom(doc, i + 1)
  }

  /** The indices from i on of tokens that are not their own head, in increasing order. */
  function Dependents(doc: seq<Token>, i: nat): (r: seq<nat>)
    requires i <= |doc|
    ensures forall k :: 0 <= k < |r| ==> i <= r[k] < |doc| && doc[r[k]].head != r[k]
    ensures forall a, b :: 0 <= a < b < |r| ==> r[a] < r[b]
    ensures forall j :: i <= j < |doc| && doc[j].head != j ==> j in r
    decreases |doc| - i
  {
    if i == |doc| then []
    else (if doc[i].head != i then [i] else []) + Dependents(doc, i + 1)
  }

  /**
   * Arc a is the one drawn for dependent d: it carries d's label and text,
   * runs from the lower to the higher of d and d's head, and points left
   * exactly when d comes before its head.
   */
  ghost predicate DrawnFor(doc: seq<Token>, d: nat, a: Arc)
    requires d < |doc|
  {
    var h := doc[d].head;
    && a.arcLabel == doc[d].dep
    && a.text == doc[d].text
    && a.start < a.end
    && (a.dir == Left <==> d < h)
    && (if d < h then a.start == d && a.end == h else a.start == h && a.end == d)
  }

  /**
   * The arcs from index i on are exactly one per token that is not its own
   * head, in token order; roots contribute nothing.
   */
  lemma {:induction false} ArcsFromDependents(doc: seq<Token>, i: nat)
    requires i <= |doc|
    ensures |ArcsFrom(doc, i)| == |Dependents(doc, i)|
    ensures forall k :: 0 <= k < |ArcsFrom(doc, i)| ==>
      DrawnFor(doc, Dependents(doc, i)[k], ArcsFrom(doc, i)[k])
    decreases |doc| - i
  {
    if i < |doc| {
      ArcsFromDependents(doc, i + 1);
      var arcs, deps := ArcsFrom(doc, i), Dependents(doc, i);
      var arcs', deps' := ArcsFrom(doc, i + 1), Dependents(doc, i + 1);
      if doc[i].head != i {
        assert arcs == [ArcOf(doc, i).value] + arcs';
        assert deps == [i] + deps';
        forall k | 0 <= k < |arcs| ensures DrawnFor(doc, deps[k], arcs[k]) {
          if k > 0 {
            assert arcs[k] == arcs'[k - 1] && deps[k] == deps'[k - 1];
          }
        }
      } else {
        assert arcs == arcs' && deps == deps';
      }
    }
  }

  /**
   * Every token whose head is another token gets exactly one arc, in token
   * order, drawn as `DrawnFor` says; a root gets none.
   */
  lemma ArcsOfDocument(doc: seq<Token>)
    ensures var arcs, deps := ArcsFrom(doc, 0), Dependents(doc, 0);
      && |arcs| == |deps|
      && (forall k :: 0 <= k < |arcs| ==> DrawnFor(doc, deps[k], arcs[k]))
      && (forall a, b :: 0 <= a < b < |deps| ==> deps[a] < deps[b])
      && (forall j :: 0 <= j < |doc| ==> (j in deps <==> doc[j].head != j))
  {
    ArcsFromDependents(doc, 0);
  }

  /** When every head index is inside the document, so is every arc. */
  lemma ArcsInsideDocument(doc: seq<Token>)
    requires forall j :: 0 <= j < |doc| ==> doc[j].head < |doc|
    ensures forall k :: 0 <= k < |ArcsFrom(doc, 0)| ==> ArcsFrom(doc, 0)[k].start < ArcsFrom(doc, 0)[k].end < |doc|
  {
    ArcsFromDependents(doc, 0);
  }

  /**
   * `Parse.to_json`: `words` holds each token's text and tag in
   * document order; `arcs` is built by one pass that appends, for each token
   * before its head, a left arc and, for each token after its head, a right
   * arc.
   */
  method ToJson(doc: seq<Token>) returns (words: seq<Word>, arcs: seq<Arc>)
    ensures |words| == |doc|
    ensures forall k :: 0 <= k < |doc| ==> words[k] == Word(doc[k].text, doc[k].tag)
    ensures arcs == ArcsFrom(doc, 0)
  {
    words := seq(|doc|, k requires 0 <= k < |doc| => Word(doc[k].text, doc[k].tag));
    arcs := [];
    var i := 0;
    while i < |doc|
      invariant i <= |doc|
      invariant arcs + ArcsFrom(doc, i) == ArcsFrom(doc, 0)
    {
      var word := doc[i];
      if i < word.head {
        arcs := arcs + [Arc(i, word.head, word.dep, word.text, Left)];
      } else if i > word.head {
        arcs := arcs + [Arc(word.head, i, word.dep, word.text, Right)];
      }
      i := i + 1;
    }
    assert arcs + [] == arcs;
  }
}
