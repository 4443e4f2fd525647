/**
 * The `.nerf` annotation format: a JSON list of documents, each a text with
 * its entities. An entity is written as its text and label alone when that
 * text occurs once in the document (counted the way Python's `str.count`
 * counts) and with explicit `start`/`end` offsets otherwise; reading it back
 * takes the first occurrence of the text when no offsets are stored.
 *
 * spaCy documents are `Docs.Doc` values; a DocBin is the sequence of its
 * documents. Reading and writing files is not modelled: the codec stops at
 * the JSON value `json.dump` writes and `json.load` returns.
 */
module Nerf {
  import opened Wrappers
  import opened Text
  import opened Json
  import opened Docs

  /** `EntSpec`: one entity of a document; `start`/`end` locate it when its text alone does not. */
  datatype EntSpec = EntSpec(text: string, tag: string, start: Option<int>, end: Option<int>)

  /** `DocSpec`: a document's text and its entities, in order. */
  datatype DocSpec = DocSpec(text: string, ents: seq<EntSpec>)

  /** The exceptions the codec raises. */
  datatype NerfError =
    | NotFound(text: string)      // `str.index` raises ValueError
    | MissingEnd                  // `char_span(start, None)`: the end offset must be an int
    | MissingKey(key: string)     // KeyError: `d["ents"]` or `d["text"]` on a dict without that key
    | MissingArguments(names: seq<string>)  // TypeError: `EntSpec(**d)` without `text` and/or `label`
    | UnexpectedKey               // `EntSpec(**d)` given a key that is not one of its fields
    | TypeMismatch(what: string)  // TypeError: a JSON value of the wrong shape

  /** Only `to_dict` can write an `end` without a `start`; `from_span` never builds one. */
  predicate EndNeedsStart(e: EntSpec) {
    e.start.None? ==> e.end.None?
  }

  predicate AllEndsNeedStarts(d: DocSpec) {
    forall i :: 0 <= i < |d.ents| ==> EndNeedsStart(d.ents[i])
  }

  // ---------------------------------------------------------------------------
  // EntSpec.from_span and EntSpec.to_span
  // ---------------------------------------------------------------------------

  /**
   * `EntSpec.from_span`: keeps the span's text and label, and its offsets
   * unless `text.count(span text)` is exactly 1.
   */
  function FromSpan(text: string, span: CharSpan): (e: EntSpec)
    requires Within(text, span)
    ensures e.text == SpanText(text, span) && e.tag == span.tag
    ensures e.start.None? <==> Count(text, e.text) == 1
    ensures e.start.Some? ==> e.start.value == span.start && e.end == Some(span.end)
    ensures EndNeedsStart(e)
  {
    var t := SpanText(text, span);
    if Count(text, t) == 1 then EntSpec(t, span.tag, None, None)
    else EntSpec(t, span.tag, Some(span.start), Some(span.end))
  }

  /**
   * `EntSpec.to_span`: stored offsets are passed on unchecked; without them
   * the entity is the first occurrence of its text, and a text that does not
   * occur raises.
   */
  function ToSpan(text: string, e: EntSpec): (r: Result<CharSpan, NerfError>)
    ensures r.Ok? ==> r.value.tag == e.tag
    ensures e.start.None? && r.Ok? ==>
      r.value.end == r.value.start + |e.text| && OccursAt(text, e.text, r.value.start) &&
      forall j :: 0 <= j < r.value.start ==> !OccursAt(text, e.text, j)
    ensures e.start.None? && r.Err? ==>
      r.error == NotFound(e.text) && forall j :: !OccursAt(text, e.text, j)
    ensures e.start.Some? && e.end.Some? ==> r == Ok(CharSpan(e.start.value, e.end.value, e.tag))
    ensures e.start.Some? && e.end.None? ==> r == Err(MissingEnd)
  {
    if e.start.None? then
      match Find(text, e.text)
      case None => Err(NotFound(e.text))
      case Some(i) => Ok(CharSpan(i, i + |e.text|, e.tag))
    else if e.end.None? then Err(MissingEnd)
    else Ok(CharSpan(e.start.value, e.end.value, e.tag))
  }

  /**
   * Whatever `from_span` stored, resolving it against the same text succeeds
   * and gives a range inside the text, with the span's label, covering the
   * same characters as the span.
   */
  lemma FromSpanResolves(text: string, span: CharSpan)
    requires Within(text, span)
    ensures var r := ToSpan(text, FromSpan(text, span));
      r.Ok? && r.value.tag == span.tag && Within(text, r.value) &&
      SpanText(text, r.value) == SpanText(text, span)
  {
    var e := FromSpan(text, span);
    if e.start.None? {
      CountPositiveIffFound(text, e.text);
    }
  }

  /**
   * `from_span` followed by `to_span` gives back the span itself when the
   * offsets were stored, and when the span's text occurs at only one
   * position of the document, overlapping matches included.
   */
  lemma FromSpanRoundTrip(text: string, span: CharSpan)
    requires Within(text, span)
    requires FromSpan(text, span).start.Some? || Occurrences(text, SpanText(text, span)) == 1
    ensures ToSpan(text, FromSpan(text, span)) == Ok(span)
  {
    var t := SpanText(text, span);
    if FromSpan(text, span).start.None? {
      UniqueOccurrenceFound(text, t, span.start);
    }
  }

  /**
   * The round trip fails for a span at the second of two overlapping
   * matches: in "1 1 1", "1 1" occurs at 0 and at 2, but `str.count` finds
   * only the first, so the span [2, 5) is stored without offsets and comes
   * back as [0, 3).
   */
  lemma FromSpanOverlapCounterexample()
    ensures var text, span := "1 1 1", CharSpan(2, 5, "AddressNumber");
      Within(text, span) && FromSpan(text, span).start.None? &&
      ToSpan(text, FromSpan(text, span)) == Ok(CharSpan(0, 3, "AddressNumber"))
  {
    var text, t := "1 1 1", "1 1";
    assert text[2..5] == t;
    assert OccursAt(text, t, 0) by { assert text[0..3] == t; }
    assert CountFrom(text, t, 3) == 0;
    assert Count(text, t) == 1;
    assert Find(text, t) == Some(0);
  }

  /**
   * `from_span` as its comment describes it: the offsets are left out only
   * when the span's text occurs once, overlapping matches included. Resolving
   * the result always gives back the span.
   */
  function FromSpanFixed(text: string, span: CharSpan): (e: EntSpec)
    requires Within(text, span)
    ensures e.text == SpanText(text, span) && e.tag == span.tag
    ensures e.start.None? <==> Occurrences(text, e.text) == 1
    ensures EndNeedsStart(e)
    ensures ToSpan(text, e) == Ok(span)
  {
    var t := SpanText(text, span);
    if Occurrences(text, t) == 1 then
      UniqueOccurrenceFound(text, t, span.start);
      EntSpec(t, span.tag, None, None)
    else
      EntSpec(t, span.tag, Some(span.start), Some(span.end))
  }

  /**
   * The corrected `from_span` differs from the written one only on spans
   * whose text `str.count` finds once but that occur more than once.
   */
  lemma FixedDiffersOnlyOnOverlaps(text: string, span: CharSpan)
    requires Within(text, span)
    ensures FromSpan(text, span) != FromSpanFixed(text, span) ==>
      Count(text, SpanText(text, span)) == 1 && Occurrences(text, SpanText(text, span)) > 1
  {
    var t := SpanText(text, span);
    CountAtMostOccurrences(text, t);
    OccurrenceCounted(text, t, 0, span.start);
    if Occurrences(text, t) == 1 {
      UniqueOccurrenceFound(text, t, span.start);
      CountPositiveIffFound(text, t);
    }
  }

  // ---------------------------------------------------------------------------
  // EntSpec.to_dict and EntSpec(**d)
  // ---------------------------------------------------------------------------

  const EntKeys: set<string> := {"text", "label", "start", "end"}

  function IntOrNull(v: Option<int>): Json {
    if v.Some? then JInt(v.value) else JNull
  }

  /** `EntSpec.to_dict`: `text` and `label` always; `start` and `end` only when `start` is set. */
  function EntToDict(e: EntSpec): (d: map<string, Json>)
    ensures d.Keys == if e.start.Some? then EntKeys else {"text", "label"}
    ensures d["text"] == JStr(e.text) && d["label"] == JStr(e.tag)
    ensures e.start.Some? ==> d["start"] == JInt(e.start.value) && d["end"] == IntOrNull(e.end)
  {
    var d := map["text" := JStr(e.text), "label" := JStr(e.tag)];
    if e.start.Some? then d["start" := JInt(e.start.value)]["end" := IntOrNull(e.end)] else d
  }

  /** A `start` or `end` keyword argument: absent or null gives `None`. */
  function OptionalInt(d: map<string, Json>, key: string): (r: Result<Option<int>, NerfError>)
    ensures r == Ok(None) <==> key !in d || d[key] == JNull
    ensures r.Ok? && r.value.Some? <==> key in d && d[key].JInt?
    ensures r.Ok? && r.value.Some? ==> d[key] == JInt(r.value.value)
    ensures r.Err? <==> key in d && d[key] != JNull && !d[key].JInt?
  {
    if key !in d || d[key] == JNull then Ok(None)
    else if d[key].JInt? then Ok(Some(d[key].i))
    else Err(TypeMismatch(key))
  }

  /** The required fields of `EntSpec` that `d` leaves out, in declaration order. */
  function MissingFields(d: map<string, Json>): (names: seq<string>)
    ensures forall k :: k in names <==> (k == "text" || k == "label") && k !in d
  {
    (if "text" in d then [] else ["text"]) + (if "label" in d then [] else ["label"])
  }

  /**
   * `EntSpec(**d)` on a JSON value: `d` must be an object whose keys are
   * fields of `EntSpec`, with `text` and `label` present.
   */
  function EntFromDict(j: Json): (r: Result<EntSpec, NerfError>)
    ensures r.Ok? <==> && j.JObj? && j.fields.Keys <= EntKeys
                       && "text" in j.fields && j.fields["text"].JStr?
                       && "label" in j.fields && j.fields["label"].JStr?
                       && OptionalInt(j.fields, "start").Ok? && OptionalInt(j.fields, "end").Ok?
    ensures r.Ok? ==> j.fields["text"] == JStr(r.value.text) && j.fields["label"] == JStr(r.value.tag)
    ensures r.Ok? ==> OptionalInt(j.fields, "start") == Ok(r.value.start)
    ensures r.Ok? ==> OptionalInt(j.fields, "end") == Ok(r.value.end)
    ensures j.JObj? && j.fields.Keys <= EntKeys && MissingFields(j.fields) != [] ==>
      r == Err(MissingArguments(MissingFields(j.fields)))
  {
    if !j.JObj? then Err(TypeMismatch("entity"))
    else
      var d := j.fields;
      if !(d.Keys <= EntKeys) then Err(UnexpectedKey)
      else if MissingFields(d) != [] then Err(MissingArguments(MissingFields(d)))
      else if !d["text"].JStr? then Err(TypeMismatch("text"))
      else if !d["label"].JStr? then Err(TypeMismatch("label"))
      else
        match OptionalInt(d, "start")
        case Err(err) => Err(err)
        case Ok(s) =>
          match OptionalInt(d, "end")
          case Err(err) => Err(err)
          case Ok(e) => Ok(EntSpec(d["text"].s, d["label"].s, s, e))
  }

  /**
   * An entity written by `to_dict` reads back unchanged exactly when it does
   * not carry an `end` without a `start` (such an `end` is not written).
   */
  lemma EntDictRoundTrip(e: EntSpec)
    ensures EntFromDict(JObj(EntToDict(e))) == Ok(e) <==> EndNeedsStart(e)
  {
    var d := EntToDict(e);
    if e.start.Some? {
      assert OptionalInt(d, "start") == Ok(e.start);
      assert OptionalInt(d, "end") == Ok(e.end);
    } else {
      assert OptionalInt(d, "start") == Ok(None);
      assert OptionalInt(d, "end") == Ok(None);
    }
  }

  // ---------------------------------------------------------------------------
  // Lists
  // ---------------------------------------------------------------------------

  /**
   * What a Python `for` loop visits in a JSON value: the items of a list.
   * Iterating a non-empty object or string visits `str` keys or characters,
   * on which both readers below raise TypeError at once; an empty one visits
   * nothing; numbers, booleans and null are not iterable.
   */
  function Elements(j: Json): (r: Result<seq<Json>, NerfError>)
    ensures r.Ok? <==> j.JArr? || j == JObj(map[]) || j == JStr("")
    ensures j.JArr? ==> r == Ok(j.items)
    ensures r.Ok? && !j.JArr? ==> r.value == []
  {
    match j
    case JArr(items) => Ok(items)
    case JObj(m) => if m == map[] then Ok([]) else Err(TypeMismatch("object"))
    case JStr(s) => if s == "" then Ok([]) else Err(TypeMismatch("string"))
    case _ => Err(TypeMismatch("not iterable"))
  }

  /**
   * A list comprehension `[f(x) for x in xs]` whose calls may raise: the
   * results in order, or the error of the first call that raises.
   */
  function Collect<A, B>(xs: seq<A>, f: A -> Result<B, NerfError>): (r: Result<seq<B>, NerfError>)
    ensures r.Ok? <==> forall i :: 0 <= i < |xs| ==> f(xs[i]).Ok?
    ensures r.Ok? ==> |r.value| == |xs| && forall i :: 0 <= i < |xs| ==> f(xs[i]) == Ok(r.value[i])
    ensures r.Err? ==> exists i :: (0 <= i < |xs| && f(xs[i]) == Err(r.error) &&
      forall j :: 0 <= j < i ==> f(xs[j]).Ok?)
  {
    if |xs| == 0 then Ok([])
    else
      var init := xs[..|xs| - 1];
      assert forall i :: 0 <= i < |xs| - 1 ==> init[i] == xs[i];
      match Collect(init, f)
      case Err(e) => Err(e)
      case Ok(vs) =>
        match f(xs[|xs| - 1])
        case Err(e) => Err(e)
        case Ok(v) => Ok(vs + [v])
  }

  /** Once a prefix raises, the whole comprehension raises the same error. */
  lemma {:induction false} CollectPrefixErr<A, B>(xs: seq<A>, k: nat, f: A -> Result<B, NerfError>)
    requires k <= |xs| && Collect(xs[..k], f).Err?
    decreases |xs|
    ensures Collect(xs, f) == Collect(xs[..k], f)
  {
    if k < |xs| {
      var init := xs[..|xs| - 1];
      assert init[..k] == xs[..k];
      CollectPrefixErr(init, k, f);
    } else {
      assert xs[..k] == xs;
    }
  }

  /** One more call of the comprehension: its result is appended, or its error raised. */
  lemma CollectStep<A, B>(xs: seq<A>, i: nat, f: A -> Result<B, NerfError>)
    requires i < |xs| && Collect(xs[..i], f).Ok?
    ensures f(xs[i]).Err? ==> Collect(xs[..i + 1], f) == Err(f(xs[i]).error)
    ensures f(xs[i]).Ok? ==> Collect(xs[..i + 1], f) == Ok(Collect(xs[..i], f).value + [f(xs[i]).value])
  {
    assert xs[..i + 1][..i] == xs[..i];
  }

  // ---------------------------------------------------------------------------
  // DocSpec.to_dict and DocSpec.from_dict
  // ---------------------------------------------------------------------------

  /** `DocSpec.to_dict`: the text, and the entities' dictionaries in order. */
  function DocToDict(d: DocSpec): (m: map<string, Json>)
    ensures m.Keys == {"text", "ents"} && m["text"] == JStr(d.text)
    ensures m["ents"].JArr? && |m["ents"].items| == |d.ents|
    ensures forall i :: 0 <= i < |d.ents| ==> m["ents"].items[i] == JObj(EntToDict(d.ents[i]))
  {
    map["text" := JStr(d.text),
        "ents" := JArr(seq(|d.ents|, i requires 0 <= i < |d.ents| => JObj(EntToDict(d.ents[i]))))]
  }

  /**
   * `DocSpec.from_dict`: reads the entities of `d["ents"]` in order, then
   * `d["text"]`; other keys are ignored.
   */
  function DocFromDict(j: Json): (r: Result<DocSpec, NerfError>)
    ensures r.Ok? <==> && j.JObj? && "ents" in j.fields && Elements(j.fields["ents"]).Ok?
                       && Collect(Elements(j.fields["ents"]).value, EntFromDict).Ok?
                       && "text" in j.fields && j.fields["text"].JStr?
    ensures r.Ok? ==> j.fields["text"] == JStr(r.value.text)
    ensures r.Ok? ==> var items := Elements(j.fields["ents"]).value;
      |r.value.ents| == |items| && forall i :: 0 <= i < |items| ==> EntFromDict(items[i]) == Ok(r.value.ents[i])
    ensures j.JObj? && "ents" !in j.fields ==> r == Err(MissingKey("ents"))
    ensures && j.JObj? && "ents" in j.fields && Elements(j.fields["ents"]).Ok?
            && Collect(Elements(j.fields["ents"]).value, EntFromDict).Ok? && "text" !in j.fields
            ==> r == Err(MissingKey("text"))
  {
    if !j.JObj? then Err(TypeMismatch("document"))
    else if "ents" !in j.fields then Err(MissingKey("ents"))
    else
      match Elements(j.fields["ents"])
      case Err(e) => Err(e)
      case Ok(items) =>
        match Collect(items, EntFromDict)
        case Err(e) => Err(e)
        case Ok(ents) =>
          if "text" !in j.fields then Err(MissingKey("text"))
          else if !j.fields["text"].JStr? then Err(TypeMismatch("text"))
          else Ok(DocSpec(j.fields["text"].s, ents))
  }

  /** `from_dict(to_dict(d)) == d`, entity order included. */
  lemma DocDictRoundTrip(d: DocSpec)
    requires AllEndsNeedStarts(d)
    ensures DocFromDict(JObj(DocToDict(d))) == Ok(d)
  {
    var m := DocToDict(d);
    var items := m["ents"].items;
    forall i | 0 <= i < |items|
      ensures EntFromDict(items[i]) == Ok(d.ents[i])
    {
      EntDictRoundTrip(d.ents[i]);
    }
    var r := Collect(items, EntFromDict);
    assert r.Ok?;
    assert r.value == d.ents;
  }

  /** `docspecs_to_nerf` without the file: the list of document dictionaries, in order. */
  function NerfToJson(specs: seq<DocSpec>): (j: Json)
    ensures j.JArr? && |j.items| == |specs|
    ensures forall i :: 0 <= i < |specs| ==> j.items[i] == JObj(DocToDict(specs[i]))
  {
    JArr(seq(|specs|, i requires 0 <= i < |specs| => JObj(DocToDict(specs[i]))))
  }

  /** `nerf_to_docspecs` without the file: `from_dict` on each element, in order. */
  function NerfFromJson(j: Json): (r: Result<seq<DocSpec>, NerfError>)
    ensures r.Ok? <==> (Elements(j).Ok? &&
      forall i :: 0 <= i < |Elements(j).value| ==> DocFromDict(Elements(j).value[i]).Ok?)
    ensures r.Ok? ==> Elements(j).Ok? && |r.value| == |Elements(j).value|
    ensures r.Ok? ==> forall i :: 0 <= i < |r.value| ==> DocFromDict(Elements(j).value[i]) == Ok(r.value[i])
    ensures Elements(j).Err? ==> r == Err(Elements(j).error)
    ensures r.Err? && Elements(j).Ok? ==> exists i :: (0 <= i < |Elements(j).value| &&
      DocFromDict(Elements(j).value[i]) == Err(r.error) &&
      forall k :: 0 <= k < i ==> DocFromDict(Elements(j).value[k]).Ok?)
  {
    match Elements(j)
    case Err(e) => Err(e)
    case Ok(items) => Collect(items, DocFromDict)
  }

  /** Writing a list of documents and reading it back gives the same list, in the same order. */
  lemma NerfRoundTrip(specs: seq<DocSpec>)
    requires forall i :: 0 <= i < |specs| ==> AllEndsNeedStarts(specs[i])
    ensures NerfFromJson(NerfToJson(specs)) == Ok(specs)
  {
    var items := NerfToJson(specs).items;
    forall i | 0 <= i < |items|
      ensures DocFromDict(items[i]) == Ok(specs[i])
    {
      DocDictRoundTrip(specs[i]);
    }
    var r := Collect(items, DocFromDict);
    assert r.Ok?;
    assert r.value == specs;
  }

  // ---------------------------------------------------------------------------
  // DocSpec.from_doc and DocSpec.to_doc
  // ---------------------------------------------------------------------------

  /** `DocSpec.from_doc`: the document's text and one `from_span` per entity, in entity order. */
  function FromDoc(doc: Doc): (d: DocSpec)
    requires WellFormedDoc(doc)
    ensures d.text == doc.text && |d.ents| == |doc.ents|
    ensures forall i :: 0 <= i < |doc.ents| ==> d.ents[i] == FromSpan(doc.text, doc.ents[i])
    ensures AllEndsNeedStarts(d)
  {
    DocSpec(doc.text, seq(|doc.ents|, i requires 0 <= i < |doc.ents| => FromSpan(doc.text, doc.ents[i])))
  }

  /** `from_doc` with the corrected `from_span`. */
  function FromDocFixed(doc: Doc): (d: DocSpec)
    requires WellFormedDoc(doc)
    ensures d.text == doc.text && |d.ents| == |doc.ents|
    ensures forall i :: 0 <= i < |doc.ents| ==> d.ents[i] == FromSpanFixed(doc.text, doc.ents[i])
    ensures AllEndsNeedStarts(d)
  {
    DocSpec(doc.text, seq(|doc.ents|, i requires 0 <= i < |doc.ents| => FromSpanFixed(doc.text, doc.ents[i])))
  }

  /** `to_span` against a fixed document text, as a function value. */
  function Resolver(text: string): EntSpec -> Result<CharSpan, NerfError> {
    e => ToSpan(text, e)
  }

  /**
   * The document `DocSpec.to_doc` builds: the same text, with every entity
   * resolved by `to_span`, in order; the first entity that fails to resolve
   * makes it fail.
   */
  function SpecToDoc(spec: DocSpec): (r: Result<Doc, NerfError>)
    ensures r.Ok? <==> forall i :: 0 <= i < |spec.ents| ==> ToSpan(spec.text, spec.ents[i]).Ok?
    ensures r.Ok? ==> r.value.text == spec.text && |r.value.ents| == |spec.ents|
    ensures r.Ok? ==> forall i :: 0 <= i < |spec.ents| ==> ToSpan(spec.text, spec.ents[i]) == Ok(r.value.ents[i])
  {
    var f := Resolver(spec.text);
    assert forall i :: 0 <= i < |spec.ents| ==> f(spec.ents[i]) == ToSpan(spec.text, spec.ents[i]);
    match Collect(spec.ents, f)
    case Err(e) => Err(e)
    case Ok(spans) => Ok(Doc(spec.text, spans))
  }

  /**
   * `DocSpec.to_doc`: starts from the bare text and assigns
   * `doc.ents = list(doc.ents) + [span]` once per entity.
   */
  method ToDoc(spec: DocSpec) returns (r: Result<Doc, NerfError>)
    ensures r == SpecToDoc(spec)
  {
    var f := Resolver(spec.text);
    var ents: seq<CharSpan> := [];
    for i := 0 to |spec.ents|
      invariant Collect(spec.ents[..i], f) == Ok(ents)
    {
      var span := ToSpan(spec.text, spec.ents[i]);
      assert f(spec.ents[i]) == span;
      CollectStep(spec.ents, i, f);
      if span.Err? {
        CollectPrefixErr(spec.ents, i + 1, f);
        return Err(span.error);
      }
      ents := ents + [span.value];
    }
    assert spec.ents[..|spec.ents|] == spec.ents;
    r := Ok(Doc(spec.text, ents));
  }

  /**
   * `back` has the text of `doc` and as many entities, and each of them has
   * the label of the entity of `doc` at the same position and covers the same
   * characters (though perhaps at another place in the text).
   */
  predicate KeepsEntities(doc: Doc, back: Doc)
    requires WellFormedDoc(doc)
  {
    && back.text == doc.text && |back.ents| == |doc.ents|
    && forall i :: 0 <= i < |doc.ents| ==>
         back.ents[i].tag == doc.ents[i].tag && Within(doc.text, back.ents[i]) &&
         SpanText(doc.text, back.ents[i]) == SpanText(doc.text, doc.ents[i])
  }

  /**
   * Converting a spaCy document to a `DocSpec` and back keeps its text, and
   * keeps each entity's label and the characters it covers.
   */
  lemma DocConversionKeepsEntities(doc: Doc)
    requires WellFormedDoc(doc)
    ensures var r := SpecToDoc(FromDoc(doc));
      r.Ok? && KeepsEntities(doc, r.value)
  {
    var spec := FromDoc(doc);
    forall i | 0 <= i < |doc.ents|
      ensures var s := ToSpan(doc.text, spec.ents[i]);
        s.Ok? && s.value.tag == doc.ents[i].tag && Within(doc.text, s.value) &&
        SpanText(doc.text, s.value) == SpanText(doc.text, doc.ents[i])
    {
      FromSpanResolves(doc.text, doc.ents[i]);
    }
  }

  /**
   * The moved entity can land on another one: in `"1 1 1"` with entities
   * `[0, 1)` and `[2, 5)`, the second comes back as `[0, 3)`, overlapping the
   * first, which spaCy's `doc.ents` setter refuses.
   */
  lemma DocConversionOverlapCounterexample()
    ensures var doc := Doc("1 1 1", [CharSpan(0, 1, "AddressNumber"), CharSpan(2, 5, "StreetName")]);
      && WellFormedDoc(doc)
      && SpecToDoc(FromDoc(doc)) ==
           Ok(Doc("1 1 1", [CharSpan(0, 1, "AddressNumber"), CharSpan(0, 3, "StreetName")]))
  {
    var text := "1 1 1";
    var first, second := CharSpan(0, 1, "AddressNumber"), CharSpan(2, 5, "StreetName");
    var moved := CharSpan(0, 3, "StreetName");
    RepeatedTextKeepsOffsets(first.tag);
    OverlappingTextMoves(second.tag);
    var spec := FromDoc(Doc(text, [first, second]));
    assert ToSpan(text, spec.ents[0]) == Ok(first);
    assert ToSpan(text, spec.ents[1]) == Ok(moved);
    var back := SpecToDoc(spec);
    assert back.Ok? && back.value.ents[0] == first && back.value.ents[1] == moved;
    assert back.value == Doc(text, [first, moved]);
  }

  /** `"1"` occurs three times in `"1 1 1"`, so its entity keeps its offsets. */
  lemma RepeatedTextKeepsOffsets(tag: string)
    ensures FromSpan("1 1 1", CharSpan(0, 1, tag)) == EntSpec("1", tag, Some(0), Some(1))
  {
    var text := "1 1 1";
    assert OccursAt(text, "1", 0) by { assert text[0..1] == "1"; }
    assert !OccursAt(text, "1", 1) by { assert text[1..2] == " "; }
    assert OccursAt(text, "1", 2) by { assert text[2..3] == "1"; }
    assert CountFrom(text, "1", 2) >= 1;
    assert Count(text, "1") >= 2;
    assert text[0..1] == "1";
  }

  /** `"1 1"` is counted once in `"1 1 1"`, so its entity at `[2, 5)` is stored bare and found at `[0, 3)`. */
  lemma OverlappingTextMoves(tag: string)
    ensures FromSpan("1 1 1", CharSpan(2, 5, tag)) == EntSpec("1 1", tag, None, None)
    ensures ToSpan("1 1 1", EntSpec("1 1", tag, None, None)) == Ok(CharSpan(0, 3, tag))
  {
    var text, t := "1 1 1", "1 1";
    assert text[2..5] == t;
    assert OccursAt(text, t, 0) by { assert text[0..3] == t; }
    assert CountFrom(text, t, 3) == 0;
    assert Count(text, t) == 1;
    assert Find(text, t) == Some(0);
  }

  /** With the corrected `from_span`, converting a document to a `DocSpec` and back gives the document itself. */
  lemma DocRoundTripFixed(doc: Doc)
    requires WellFormedDoc(doc)
    ensures SpecToDoc(FromDocFixed(doc)) == Ok(doc)
  {
    var r := SpecToDoc(FromDocFixed(doc));
    assert r.Ok?;
    assert r.value.ents == doc.ents;
  }

  // ---------------------------------------------------------------------------
  // DocBin conversions
  // ---------------------------------------------------------------------------

  /** `docspecs_to_docbin`: `to_doc` on each spec, added to the DocBin in order. */
  method DocSpecsToDocBin(specs: seq<DocSpec>) returns (r: Result<seq<Doc>, NerfError>)
    ensures r == Collect(specs, SpecToDoc)
  {
    var docs: seq<Doc> := [];
    for i := 0 to |specs|
      invariant Collect(specs[..i], SpecToDoc) == Ok(docs)
    {
      var doc := ToDoc(specs[i]);
      assert specs[..i + 1][..i] == specs[..i];
      if doc.Err? {
        CollectPrefixErr(specs, i + 1, SpecToDoc);
        return Err(doc.error);
      }
      docs := docs + [doc.value];
    }
    assert specs[..|specs|] == specs;
    r := Ok(docs);
  }

  /** `docbin_to_docspecs`: `from_doc` on each document of the DocBin, in order. */
  function DocBinToDocSpecs(docs: seq<Doc>): (specs: seq<DocSpec>)
    requires forall i :: 0 <= i < |docs| ==> WellFormedDoc(docs[i])
    ensures |specs| == |docs| && forall i :: 0 <= i < |docs| ==> specs[i] == FromDoc(docs[i])
  {
    seq(|docs|, i requires 0 <= i < |docs| => FromDoc(docs[i]))
  }

  /** `docbin_to_docspecs` with the corrected `from_span`. */
  function DocBinToDocSpecsFixed(docs: seq<Doc>): (specs: seq<DocSpec>)
    requires forall i :: 0 <= i < |docs| ==> WellFormedDoc(docs[i])
    ensures |specs| == |docs| && forall i :: 0 <= i < |docs| ==> specs[i] == FromDocFixed(docs[i])
  {
    seq(|docs|, i requires 0 <= i < |docs| => FromDocFixed(docs[i]))
  }

  /** `docbin_to_nerf` without the file. */
  function DocBinToNerf(docs: seq<Doc>): (j: Json)
    requires forall i :: 0 <= i < |docs| ==> WellFormedDoc(docs[i])
    ensures j == NerfToJson(DocBinToDocSpecs(docs))
    ensures NerfFromJson(j) == Ok(DocBinToDocSpecs(docs))
  {
    var specs := DocBinToDocSpecs(docs);
    NerfRoundTrip(specs);
    NerfToJson(specs)
  }

  /**
   * A DocBin written as `.nerf` and read back into a DocBin gives as many
   * documents, in the same order, each with its text and with its entities'
   * labels and covered characters (an entity whose text occurs more than
   * once, overlapping, can come back at its first occurrence).
   */
  lemma DocBinRoundTrip(docs: seq<Doc>)
    requires forall i :: 0 <= i < |docs| ==> WellFormedDoc(docs[i])
    ensures var specs := NerfFromJson(DocBinToNerf(docs));
      specs.Ok? && var r := Collect(specs.value, SpecToDoc);
      r.Ok? && |r.value| == |docs| && forall i :: 0 <= i < |docs| ==> KeepsEntities(docs[i], r.value[i])
  {
    var specs := DocBinToDocSpecs(docs);
    forall i | 0 <= i < |specs|
      ensures SpecToDoc(specs[i]).Ok? && KeepsEntities(docs[i], SpecToDoc(specs[i]).value)
    {
      DocConversionKeepsEntities(docs[i]);
    }
    var r := Collect(specs, SpecToDoc);
    assert r.Ok?;
  }

  /**
   * With the corrected `from_span`, a DocBin written as `.nerf` and read back
   * gives the same documents, in the same order.
   */
  lemma DocBinRoundTripFixed(docs: seq<Doc>)
    requires forall i :: 0 <= i < |docs| ==> WellFormedDoc(docs[i])
    ensures var specs := DocBinToDocSpecsFixed(docs);
      NerfFromJson(NerfToJson(specs)) == Ok(specs) && Collect(specs, SpecToDoc) == Ok(docs)
  {
    var specs := DocBinToDocSpecsFixed(docs);
    NerfRoundTrip(specs);
    forall i | 0 <= i < |specs|
      ensures SpecToDoc(specs[i]) == Ok(docs[i])
    {
      DocRoundTripFixed(docs[i]);
    }
    var r := Collect(specs, SpecToDoc);
    assert r.Ok?;
    assert r.value == docs;
  }

  /**
   * The document `"1 1 1"` with the entity `[2, 5)` comes back from `.nerf`
   * with its entity moved to `[0, 3)`.
   */
  lemma DocBinOverlapCounterexample()
    ensures var docs := [Doc("1 1 1", [CharSpan(2, 5, "AddressNumber")])];
      && WellFormedDoc(docs[0])
      && NerfFromJson(DocBinToNerf(docs)).Ok?
      && Collect(NerfFromJson(DocBinToNerf(docs)).value, SpecToDoc) ==
           Ok([Doc("1 1 1", [CharSpan(0, 3, "AddressNumber")])])
  {
    var doc := Doc("1 1 1", [CharSpan(2, 5, "AddressNumber")]);
    FromSpanOverlapCounterexample();
    var spec := FromDoc(doc);
    assert spec.ents == [FromSpan(doc.text, doc.ents[0])];
    var moved := CharSpan(0, 3, "AddressNumber");
    assert ToSpan(doc.text, spec.ents[0]) == Ok(moved);
    var back := SpecToDoc(spec);
    assert back.Ok? && back.value.ents[0] == moved;
    assert back.value == Doc("1 1 1", [moved]);
    assert DocBinToDocSpecs([doc]) == [spec];
    var r := Collect([spec], SpecToDoc);
    assert r.Ok? && SpecToDoc(spec) == Ok(r.value[0]);
    assert r.value == [back.value];
  }

  /** `nerf_to_docbin` without the file. */
  method NerfToDocBin(j: Json) returns (r: Result<seq<Doc>, NerfError>)
    ensures NerfFromJson(j).Err? ==> r == Err(NerfFromJson(j).error)
    ensures NerfFromJson(j).Ok? ==> r == Collect(NerfFromJson(j).value, SpecToDoc)
  {
    var specs := NerfFromJson(j);
    if specs.Err? {
      return Err(specs.error);
    }
    r := DocSpecsToDocBin(specs.value);
  }

  // ---------------------------------------------------------------------------
  // cli
  // ---------------------------------------------------------------------------

  const Formats: set<string> := {"spacy", "nerf"}

  /** The conversion `cli` runs: what it reads (`input`) and what it writes (`output`). */
  datatype Conversion = SpacyToNerf(input: string, output: string) | NerfToSpacy(input: string, output: string)

  /** The ValueErrors `cli` raises. */
  datatype CliError =
    | InvalidInputFormat(format: string)
    | InvalidOutputFormat(format: string)
    | CannotConvert(source: string, target: string)

  /** The text after the last `/` of `p`. */
  function LastComponent(p: string): (r: string)
    ensures '/' !in r && |r| <= |p| && r == p[|p| - |r|..]
  {
    if |p| == 0 || p[|p| - 1] == '/' then ""
    else LastComponent(p[..|p| - 1]) + [p[|p| - 1]]
  }

  /** pathlib's `PurePath(p).name`: the last component, ignoring trailing slashes and `.` components. */
  function PathName(p: string): (r: string)
    decreases |p|
    ensures '/' !in r
  {
    var q := RStripChar(p, '/');
    var last := LastComponent(q);
    if last == "." then PathName(q[..|q| - 1]) else last
  }

  /** pathlib's `PurePath(p).suffix`: from the last `.` of the name, unless that dot opens or closes it. */
  function PathSuffix(p: string): (r: string)
    ensures r == [] || (r[0] == '.' && forall k :: 0 < k < |r| ==> r[k] != '.')
  {
    var name := PathName(p);
    var i := RFind(name, '.');
    if 0 < i < |name| - 1 then name[i..] else ""
  }

  /** The format `cli` works with: the one given, or else the path's suffix without its leading dots. */
  function FormatOf(given: Option<string>, path: string): (f: string)
    ensures given.Some? ==> f == given.value
    ensures given.None? ==> forall k :: 0 <= k < |f| ==> f[k] != '.'
  {
    if given.Some? then given.value else LStripChar(PathSuffix(path), '.')
  }

  /**
   * `cli`: picks the two formats, rejects one that is neither `spacy` nor
   * `nerf`, and accepts only spacy-to-nerf and nerf-to-spacy. The result is
   * the conversion to run; every rejection is decided before any file is read.
   */
  method Cli(inp: string, out: string, inpFormat: Option<string>, outFormat: Option<string>)
    returns (r: Result<Conversion, CliError>)
    ensures var i, o := FormatOf(inpFormat, inp), FormatOf(outFormat, out);
      && (r.Ok? <==> (i == "spacy" && o == "nerf") || (i == "nerf" && o == "spacy"))
      && (r.Ok? && i == "spacy" ==> r.value == SpacyToNerf(inp, out))
      && (r.Ok? && i == "nerf" ==> r.value == NerfToSpacy(inp, out))
      && (i !in Formats ==> r == Err(InvalidInputFormat(i)))
      && (i in Formats && o !in Formats ==> r == Err(InvalidOutputFormat(o)))
      && (i in Formats && i == o ==> r == Err(CannotConvert(i, o)))
  {
    var inFormat, outFmt := "", "";
    if inpFormat.None? {
      inFormat := LStripChar(PathSuffix(inp), '.');
    } else {
      inFormat := inpFormat.value;
    }
    if outFormat.None? {
      outFmt := LStripChar(PathSuffix(out), '.');
    } else {
      outFmt := outFormat.value;
    }

    if inFormat !in ["spacy", "nerf"] {
      return Err(InvalidInputFormat(inFormat));
    }
    if outFmt !in ["spacy", "nerf"] {
      return Err(InvalidOutputFormat(outFmt));
    }

    if inFormat == "spacy" && outFmt == "nerf" {
      r := Ok(SpacyToNerf(inp, out));
    } else if inFormat == "nerf" && outFmt == "spacy" {
      r := Ok(NerfToSpacy(inp, out));
    } else {
      r := Err(CannotConvert(inFormat, outFmt));
    }
  }

  lemma {:induction false} LastComponentOfName(dir: string, name: string)
    requires dir == "" || dir[|dir| - 1] == '/'
    requires '/' !in name
    decreases |name|
    ensures LastComponent(dir + name) == name
  {
    if |name| == 0 {
      assert dir + name == dir;
    } else {
      var n := |name| - 1;
      assert name == name[..n] + [name[n]];
      assert (dir + name)[..|dir + name| - 1] == dir + name[..n];
      assert (dir + name)[|dir + name| - 1] == name[n];
      LastComponentOfName(dir, name[..n]);
    }
  }

  /** The last dot of `base.ext` is the one before `ext`, so the suffix is `.ext`. */
  lemma NameSuffix(base: string, ext: string)
    requires |base| > 0 && |ext| > 0 && '.' !in ext
    ensures var name := base + "." + ext;
      RFind(name, '.') == |base| && name[|base|..] == "." + ext
  {
    var name := base + "." + ext;
    assert name[|base|] == '.';
    assert forall k :: |base| < k < |name| ==> name[k] == ext[k - |base| - 1];
    assert name[|base|..] == "." + ext;
  }

  /**
   * With no format given, a file `dir/base.ext` is read or written as format
   * `ext`; the base name must not be empty, since a name that starts with its
   * only dot has no suffix.
   */
  lemma InferredFormat(dir: string, base: string, ext: string)
    requires dir == "" || dir[|dir| - 1] == '/'
    requires |base| > 0 && '/' !in base
    requires |ext| > 0 && '/' !in ext && '.' !in ext
    ensures FormatOf(None, dir + base + "." + ext) == ext
  {
    var name := base + "." + ext;
    var p := dir + name;
    assert dir + base + "." + ext == p;
    assert '/' !in name by {
      assert name == base + ("." + ext);
    }
    PlainPathName(dir, name);
    NameSuffix(base, ext);
    assert PathSuffix(p) == "." + ext;
    DropOneDot(ext);
  }

  lemma DropOneDot(ext: string)
    requires |ext| > 0 && ext[0] != '.'
    ensures LStripChar("." + ext, '.') == ext
  {
    assert ("." + ext)[1..] == ext;
  }

  /** The name of `dir/name` is `name` when `name` is a plain file name. */
  lemma PlainPathName(dir: string, name: string)
    requires dir == "" || dir[|dir| - 1] == '/'
    requires '/' !in name && name != "" && name != "."
    ensures PathName(dir + name) == name
  {
    var p := dir + name;
    assert p[|p| - 1] == name[|name| - 1];
    assert RStripChar(p, '/') == p;
    LastComponentOfName(dir, name);
  }

  /**
   * A hidden file such as `dir/.nerf` has no suffix, so its format is the
   * empty string, which `cli` rejects.
   */
  lemma HiddenFileHasNoFormat(dir: string, ext: string)
    requires dir == "" || dir[|dir| - 1] == '/'
    requires |ext| > 0 && '/' !in ext && '.' !in ext
    ensures FormatOf(None, dir + "." + ext) == ""
  {
    HiddenFileHasNoSuffix(dir, ext);
  }

  lemma HiddenFileHasNoSuffix(dir: string, ext: string)
    requires dir == "" || dir[|dir| - 1] == '/'
    requires |ext| > 0 && '/' !in ext && '.' !in ext
    ensures PathSuffix(dir + "." + ext) == ""
  {
    var name := "." + ext;
    assert dir + "." + ext == dir + name;
    DotOnlyFirst(ext);
    PlainPathName(dir, name);
    NoSuffixWhenOnlyDotOpens(dir + name, name);
  }

  lemma NoSuffixWhenOnlyDotOpens(p: string, name: string)
    requires PathName(p) == name && RFind(name, '.') == 0
    ensures PathSuffix(p) == ""
  {
  }

  lemma DotOnlyFirst(ext: string)
    requires '.' !in ext
    ensures RFind("." + ext, '.') == 0
  {
    var name := "." + ext;
    assert name[0] == '.';
    assert forall k :: 0 < k < |name| ==> name[k] == ext[k - 1] && name[k] != '.';
  }
}
