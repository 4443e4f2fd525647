/**
 * The misprediction viewer. An example pairs a reference document with the
 * model's prediction for the same text; an example is mispredicted when the
 * two label sequences differ, and the viewer renders the reference and the
 * prediction of exactly those examples, side by side, each widget keyed by
 * the example's position in the input.
 *
 * Loading the model and the DocBin, running the model and drawing the
 * widgets are not modelled: the examples are given, and a rendered row is
 * recorded as the two panels it draws.
 */
module Eval {
  import opened Text
  import opened Docs

  /** A spaCy `Example`: the reference document and the predicted one. */
  datatype Example = Example(reference: Doc, predicted: Doc)

  /** `[ent.label_ for ent in doc.ents]`. */
  function Labels(doc: Doc): (r: seq<string>)
    ensures |r| == |doc.ents|
    ensures forall i :: 0 <= i < |r| ==> r[i] == doc.ents[i].tag
  {
    seq(|doc.ents|, i requires 0 <= i < |doc.ents| => doc.ents[i].tag)
  }

  /** `is_misprediction`: the reference and predicted label lists differ. */
  predicate IsMisprediction(ex: Example)
    ensures ex.reference.ents == ex.predicted.ents ==> !IsMisprediction(ex)
  {
    Labels(ex.reference) != Labels(ex.predicted)
  }

  // ---------------------------------------------------------------------------
  // What counts as a misprediction
  // ---------------------------------------------------------------------------

  /**
   * An example is mispredicted exactly when the two documents have a different
   * number of entities, or the entities at some position carry different labels.
   */
  lemma MispredictionIff(ex: Example)
    ensures IsMisprediction(ex) <==>
      || |ex.reference.ents| != |ex.predicted.ents|
      || exists i :: 0 <= i < |ex.reference.ents| && i < |ex.predicted.ents| &&
           ex.reference.ents[i].tag != ex.predicted.ents[i].tag
  {
    var r, p := Labels(ex.reference), Labels(ex.predicted);
    if r != p && |r| == |p| {
      var i :| 0 <= i < |r| && r[i] != p[i];
      assert ex.reference.ents[i].tag != ex.predicted.ents[i].tag;
    }
  }

  /** `ents` with the entities at `i` and `j` exchanged. */
  function Swap(ents: seq<CharSpan>, i: nat, j: nat): (r: seq<CharSpan>)
    requires i < |ents| && j < |ents|
    ensures |r| == |ents| && r[i] == ents[j] && r[j] == ents[i]
    ensures forall k :: 0 <= k < |ents| && k != i && k != j ==> r[k] == ents[k]
  {
    ents[i := ents[j]][j := ents[i]]
  }

  /**
   * Order matters: a prediction that is right up to two entities of different
   * labels being exchanged is a misprediction.
   */
  lemma SwapIsMisprediction(ex: Example, i: nat, j: nat)
    requires !IsMisprediction(ex)
    requires i < |ex.predicted.ents| && j < |ex.predicted.ents|
    requires ex.predicted.ents[i].tag != ex.predicted.ents[j].tag
    ensures IsMisprediction(Example(ex.reference, Doc(ex.predicted.text, Swap(ex.predicted.ents, i, j))))
  {
    var swapped := Doc(ex.predicted.text, Swap(ex.predicted.ents, i, j));
    assert Labels(ex.reference)[i] == ex.predicted.ents[i].tag;
    assert Labels(swapped)[i] == ex.predicted.ents[j].tag;
  }

  /** Count matters: one entity more in the prediction makes an exact prediction a misprediction. */
  lemma ExtraEntityIsMisprediction(ex: Example, k: nat, e: CharSpan)
    requires !IsMisprediction(ex)
    requires k <= |ex.predicted.ents|
    ensures IsMisprediction(Example(ex.reference,
      Doc(ex.predicted.text, ex.predicted.ents[..k] + [e] + ex.predicted.ents[k..])))
  {
    var more := Doc(ex.predicted.text, ex.predicted.ents[..k] + [e] + ex.predicted.ents[k..]);
    assert |Labels(more)| == |Labels(ex.reference)| + 1;
  }

  /**
   * Only labels are compared: two examples whose documents carry the same
   * labels in the same order are both mispredicted or both not, whatever
   * their texts and entity boundaries.
   */
  lemma OnlyLabelsCompared(ex: Example, other: Example)
    requires |ex.reference.ents| == |other.reference.ents|
    requires forall i :: 0 <= i < |ex.reference.ents| ==>
      ex.reference.ents[i].tag == other.reference.ents[i].tag
    requires |ex.predicted.ents| == |other.predicted.ents|
    requires forall i :: 0 <= i < |ex.predicted.ents| ==>
      ex.predicted.ents[i].tag == other.predicted.ents[i].tag
    ensures IsMisprediction(ex) <==> IsMisprediction(other)
  {
    assert Labels(ex.reference) == Labels(other.reference);
    assert Labels(ex.predicted) == Labels(other.predicted);
  }

  // ---------------------------------------------------------------------------
  // viz_examples
  // ---------------------------------------------------------------------------

  /** One `visualize_ner` call: the document shown, its widget key and its title. */
  datatype Panel = Panel(doc: Doc, key: string, title: string)

  /** The two columns drawn for one example. */
  datatype Row = Row(reference: Panel, predicted: Panel)

  /** The row drawn for example `ex` at input position `i`: keys `f"{i}_ref"` and `f"{i}_pred"`. */
  function RowFor(i: nat, ex: Example): (r: Row)
    ensures r.reference.doc == ex.reference && r.reference.title == "Reference"
    ensures r.predicted.doc == ex.predicted && r.predicted.title == "Predicted"
    ensures r.reference.key != r.predicted.key
  {
    Row(Panel(ex.reference, Decimal(i) + "_ref", "Reference"),
        Panel(ex.predicted, Decimal(i) + "_pred", "Predicted"))
  }

  /**
   * The input positions the viewer renders: exactly the mispredicted
   * examples, in input order.
   */
  function Shown(examples: seq<Example>): (idx: seq<nat>)
    ensures forall k :: 0 <= k < |idx| ==> idx[k] < |examples| && IsMisprediction(examples[idx[k]])
    ensures forall i :: 0 <= i < |examples| && IsMisprediction(examples[i]) ==> i in idx
    ensures forall k, l :: 0 <= k < l < |idx| ==> idx[k] < idx[l]
  {
    if |examples| == 0 then []
    else
      var idx := Shown(examples[..|examples| - 1]);
      if IsMisprediction(examples[|examples| - 1]) then idx + [|examples| - 1] else idx
  }

  /** The rows the viewer draws, one per shown position. */
  function Rows(examples: seq<Example>): (rows: seq<Row>)
    ensures |rows| == |Shown(examples)|
  {
    var idx := Shown(examples);
    seq(|idx|, k requires 0 <= k < |idx| => RowFor(idx[k], examples[idx[k]]))
  }

  /**
   * `viz_examples`: walks the examples with their positions, skips those that
   * are not mispredicted and draws a reference/prediction row for the others.
   */
  method VizExamples(examples: seq<Example>) returns (rows: seq<Row>)
    ensures rows == Rows(examples)
  {
    rows := [];
    for i := 0 to |examples|
      invariant rows == Rows(examples[..i])
    {
      assert examples[..i + 1][..i] == examples[..i];
      if !IsMisprediction(examples[i]) {
        continue;
      }
      rows := rows + [RowFor(i, examples[i])];
    }
    assert examples[..|examples|] == examples;
  }

  // ---------------------------------------------------------------------------
  // Widget keys
  // ---------------------------------------------------------------------------

  /** Keys with the same suffix are equal only for the same position. */
  lemma KeyInjective(i: nat, j: nat, suffix: string)
    requires Decimal(i) + suffix == Decimal(j) + suffix
    ensures i == j
  {
    var a, b := Decimal(i) + suffix, Decimal(j) + suffix;
    assert Decimal(i) == a[..|Decimal(i)|];
    assert Decimal(j) == b[..|Decimal(j)|];
    DecimalInjective(i, j);
  }

  /** A reference key never equals a prediction key: they end in `f` and `d`. */
  lemma RefKeyIsNotPredKey(i: nat, j: nat)
    ensures Decimal(i) + "_ref" != Decimal(j) + "_pred"
  {
    var a, b := Decimal(i) + "_ref", Decimal(j) + "_pred";
    assert a[|a| - 1] == 'f' && b[|b| - 1] == 'd';
  }

  /** Row `k` draws the example at the `k`-th shown position, under that position's keys. */
  lemma RowsAreShownExamples(examples: seq<Example>, k: nat)
    requires k < |Rows(examples)|
    ensures var i := Shown(examples)[k];
      && Rows(examples)[k].reference == Panel(examples[i].reference, Decimal(i) + "_ref", "Reference")
      && Rows(examples)[k].predicted == Panel(examples[i].predicted, Decimal(i) + "_pred", "Predicted")
  {
  }

  /** Every widget key the viewer draws is distinct from every other. */
  lemma KeysDistinct(examples: seq<Example>)
    ensures var rows := Rows(examples);
      && (forall k, l :: 0 <= k < |rows| && 0 <= l < |rows| ==>
            rows[k].reference.key != rows[l].predicted.key)
      && (forall k, l :: 0 <= k < l < |rows| ==>
            rows[k].reference.key != rows[l].reference.key &&
            rows[k].predicted.key != rows[l].predicted.key)
  {
    var rows, idx := Rows(examples), Shown(examples);
    forall k, l | 0 <= k < |rows| && 0 <= l < |rows|
      ensures rows[k].reference.key != rows[l].predicted.key
    {
      RefKeyIsNotPredKey(idx[k], idx[l]);
    }
    forall k, l | 0 <= k < l < |rows|
      ensures rows[k].reference.key != rows[l].reference.key
      ensures rows[k].predicted.key != rows[l].predicted.key
    {
      if rows[k].reference.key == rows[l].reference.key {
        KeyInjective(idx[k], idx[l], "_ref");
      }
      if rows[k].predicted.key == rows[l].predicted.key {
        KeyInjective(idx[k], idx[l], "_pred");
      }
    }
  }
}
