/**
 * What the scripts use of spaCy's documents: a document is its text and its
 * entity spans in order, and an entity span is a labelled character range.
 * `doc.char_span(start, end, label=label)` is modelled as building the triple;
 * its token alignment belongs to spaCy and is not part of this model.
 */
module Docs {

  /** A range `[start, end)` of a document's text labelled `tag` (spaCy's `label_`). */
  datatype CharSpan = CharSpan(start: int, end: int, tag: string)

  /**
   * A document (`Doc.text`) with its entities (`Doc.ents`), in the order they
   * were assigned; nothing here sorts them or rules out overlaps.
   */
  datatype Doc = Doc(text: string, ents: seq<CharSpan>)

  /** The range lies inside `text`. */
  predicate Within(text: string, span: CharSpan) {
    0 <= span.start <= span.end <= |text|
  }

  /** All entities of `doc` lie inside its text, as they do in every spaCy document. */
  predicate WellFormedDoc(doc: Doc) {
    forall i :: 0 <= i < |doc.ents| ==> Within(doc.text, doc.ents[i])
  }

  /** `span.text`: the characters the range covers. */
  function SpanText(text: string, span: CharSpan): string
    requires Within(text, span)
  {
    text[span.start..span.end]
  }
}
