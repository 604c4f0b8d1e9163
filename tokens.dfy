/**
 * Tokens of a parsed document, as the annotation layer sees them. The
 * language model that produces them is not part of this model: a document
 * is simply given as a sequence of tokens together with the text it was
 * parsed from.
 */
module Tokens {

  /**
   * One token. `head` is the index of the token's syntactic head in the same
   * sequence (a root is its own head); `startChar` and `endChar` delimit the
   * token's text in the document text.
   */
  datatype Token = Token(
    text: string,
    tag: string,
    lemmaText: string,
    entType: string,
    isPunct: bool,
    dep: string,
    head: nat,
    startChar: nat,
    endChar: nat)

  /**
   * The part of a token that a merge determines: its text, the tag, lemma and
   * entity type it is given, and its character range. What a merge does to
   * the dependency fields is up to the library and is not modelled.
   */
  datatype Surface = Surface(
    text: string,
    tag: string,
    lemmaText: string,
    entType: string,
    startChar: nat,
    endChar: nat)

  function SurfaceOf(t: Token): Surface {
    Surface(t.text, t.tag, t.lemmaText, t.entType, t.startChar, t.endChar)
  }

  function Surfaces(doc: seq<Token>): seq<Surface> {
    seq(|doc|, k requires 0 <= k < |doc| => SurfaceOf(doc[k]))
  }

  /** Token a ends no later than token b starts. */
  predicate InOrder(ws: seq<Surface>, a: nat, b: nat)
    requires a < |ws| && b < |ws|
  {
    ws[a].endChar <= ws[b].startChar
  }

  /**
   * What the library guarantees of a document: every token covers a
   * non-empty slice of the text and its own text is that slice, and tokens
   * come in text order without overlapping.
   */
  ghost predicate WellFormed(text: string, ws: seq<Surface>) {
    && (forall k :: 0 <= k < |ws| ==>
          ws[k].startChar < ws[k].endChar <= |text| &&
          ws[k].text == text[ws[k].startChar..ws[k].endChar])
    && (forall a, b :: 0 <= a < b < |ws| ==> InOrder(ws, a, b))
  }
}
