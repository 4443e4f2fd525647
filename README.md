# spacy-address: a Dafny model of the annotation tooling

spacy-address trains a spaCy named-entity model that labels the parts of a US
street address. AddressNumber, StreetName and StreetNamePostType are examples
of those labels. Around the spaCy calls sit three small pieces of logic, and
this project models each of them and proves what they promise.

- **The `.nerf` format** (`nerf.py`, modules `Nerf` and `Json`). This is a
  JSON list of documents. Each document has a text and its entities. An entity
  is stored as its text and label alone when that text occurs once in the
  document, counted as Python's `str.count` counts. Otherwise it is stored with
  explicit `start`/`end` character offsets. On reading, an entity without
  offsets is resolved to the first `str.index` match. The module also covers:
  - the record (de)serialisers;
  - the list readers and writers;
  - the conversions to and from spaCy documents and DocBins;
  - the format decision table of `cli`.
- **The XML corpus converter** (`xml2spacy.py`, module `Xml2Spacy`).
  - Token texts are stripped of surrounding whitespace.
  - The document text is the token texts joined by single spaces.
  - Each maximal run of consecutive tokens with the same label becomes one
    entity. One trailing comma is left out of it.
  - The converter is a loop over three state variables. It is modelled as a
    method with loop invariants and proved equal to a specification function.
- **The misprediction viewer** (`eval.py`, module `Eval`). An example is
  mispredicted when its reference and predicted label sequences differ.
  `viz_examples` draws exactly those examples, in input order, each under
  widget keys built from the example's position.

Modules `Text` and `Docs` supply the rest:

- `Text` has the Python string operations the scripts rely on, each with
  Python's semantics:
  - `str.isspace`/`strip`;
  - `str.count`, which skips overlapping matches;
  - `str.index`, `removesuffix`, `lstrip`/`rstrip` of one character and
    `rfind`;
  - `" ".join` and `str(int)`.
- `Docs` has spaCy documents as values: a text and a sequence of labelled
  character ranges. `doc.char_span(start, end, label)` is modelled as building
  the triple `CharSpan(start, end, label)`.

`label` is a Dafny keyword, so the label field is called `tag` throughout.
Exceptions are modelled as `Result` errors: `NerfError`, `CliError` and
`XmlError`.

## Model

| member | source | states |
|---|---|---|
| Text.Strip | xml2spacy.py:38 | `str.strip()` is never longer than its argument and neither starts nor ends with a whitespace character |
| Text.StripRemovesOnlySpace | xml2spacy.py:38 | `s` is some whitespace, then `s.strip()`, then some more whitespace: strip removes only whitespace and only at the ends |
| Text.IsSpace | xml2spacy.py:38 | the characters `str.strip()` removes: those for which Python's `str.isspace` holds (tab to carriage return, the information separators 0x1C-0x1F, space, NEL, no-break space and the Unicode space separators) |
| Text.Count | nerf.py:109 | `s.count(sub)` counts the matches of a scan that resumes after each match, so the counted matches never overlap and fit in `s` (`count * len(sub) <= len(s)`); an empty `sub` is counted `len(s) + 1` times (the exact count is `Text.CountIsOneIff` and `Text.CountFromSkips`) |
| Text.Find | nerf.py:119 | `str.index`'s search returns the first position where the text occurs, or nothing when it occurs nowhere |
| Text.CountPositiveIffFound | nerf.py:109 | `text.count(t)` is positive exactly when `text.index(t)` succeeds |
| Text.CountAtMostOccurrences | nerf.py:109 | `str.count` never exceeds the number of positions where the text occurs, overlaps included |
| Text.CountIsOneIff | nerf.py:109 | `text.count(t) == 1` exactly when `t` occurs and every match of `t` starts inside the first one, so a second match overlapping the first does not raise the count |
| Text.CountFromSkips | nerf.py:109 | the count from a position is one for the first match and then the count resumed right after that match |
| Text.UniqueOccurrenceFound | nerf.py:119 | when a text occurs at exactly one position, overlaps included, the first-match search finds that position |
| Text.RemoveSuffix | xml2spacy.py:72 | `s.removesuffix(x)` for a non-empty `x` that ends `s` is `s` without that one copy of `x`, and `s` unchanged otherwise |
| Text.LStripChar | nerf.py:215 | `lstrip(".")` drops exactly the leading dots: what remains is a suffix of the input that does not start with a dot |
| Text.Join | xml2spacy.py:43 | `" ".join(parts)` of a non-empty list is one character shorter than the parts plus one separator each |
| Text.JoinSnoc | xml2spacy.py:70 | joining one more part appends one space and that part (`text += " " + token.text`) |
| Text.JoinAppend | xml2spacy.py:43 | joining two non-empty lists is joining each and putting one space between |
| Text.JoinAt | xml2spacy.py:43 | part `k` of the joined text starts `Width(parts[..k])` characters in and the joined text holds it there, character for character |
| Text.JoinSpaceAt | xml2spacy.py:43 | every part but the last is followed by a single space in the joined text |
| Text.Decimal | eval.py:51 | `str(i)` is a non-empty string of decimal digits |
| Text.DecimalInjective | eval.py:51 | different positions have different decimal renderings |
| Nerf.FromSpan | nerf.py:107-115 | `from_span` copies the span's text and label, and leaves the offsets out exactly when `text.count(span text) == 1`; otherwise it stores the span's start and end |
| Nerf.ToSpan | nerf.py:117-124 | `to_span` without offsets gives the first occurrence of the text, with its length and label, and raises when the text occurs nowhere; stored offsets and label are passed through unchecked; a start without an end is an error |
| Nerf.FromSpanResolves | nerf.py:107-124 | whatever `from_span` stores resolves, against the same text, to a range inside the text with the span's label that covers the same characters |
| Nerf.FromSpanRoundTrip | nerf.py:106-124 | `to_span(from_span(s)) == s` when the offsets were stored, and when the span's text occurs at only one position, overlapping matches included |
| Nerf.FromSpanOverlapCounterexample | nerf.py:109 | in `"1 1 1"`, the span `[2, 5)` is stored without offsets and comes back as `[0, 3)` |
| Nerf.FromSpanFixed | nerf.py:95-98 | `from_span` as its documentation describes it: offsets are left out exactly when the text occurs once, overlaps included, and `to_span` always gives the span back |
| Nerf.FixedDiffersOnlyOnOverlaps | nerf.py:109 | the corrected and the written `from_span` differ only on texts that `str.count` finds once but that occur more than once |
| Nerf.EntToDict | nerf.py:126-134 | `to_dict` always has `text` and `label`, and has `start` and `end` exactly when `start` is set |
| Nerf.OptionalInt | nerf.py:103-104 | a `start`/`end` argument is `None` exactly when its key is absent or null, is that integer when one is given, and fails otherwise |
| Nerf.MissingFields | nerf.py:101-102 | the required fields `text` and `label` that a dictionary leaves out |
| Nerf.EntFromDict | nerf.py:158 | `EntSpec(**d)` succeeds exactly when `d` is an object with only field keys, string `text` and `label`, and `start`/`end` absent, null or integers; the entity read has exactly those text, label, start and end; without `text` or `label` it raises the TypeError naming the missing ones |
| Nerf.EntDictRoundTrip | nerf.py:126-158 | `EntSpec(**e.to_dict()) == e` exactly when `e` has no `end` without a `start` |
| Nerf.Elements | nerf.py:158 | iterating succeeds exactly for a JSON list, an empty object or an empty string; a list visits its items in order, the empty ones visit nothing, and `null`, numbers, booleans and non-empty objects or strings raise TypeError |
| Nerf.Collect | nerf.py:158 | a comprehension whose calls may raise succeeds exactly when every call does, keeps the order, and otherwise raises the first call's error |
| Nerf.CollectPrefixErr | nerf.py:144-145 | once a prefix of the entities fails to resolve, the whole conversion fails with the same error |
| Nerf.DocToDict | nerf.py:153-154 | `DocSpec.to_dict` has the keys `text` and `ents`, with one entity dictionary per entity, in order |
| Nerf.DocFromDict | nerf.py:156-159 | `DocSpec.from_dict` succeeds exactly when `ents` is present and every element reads as an entity and `text` is a string; entity `i` is `EntSpec(**ents[i])`, in order; without `ents` it raises KeyError, and without `text` (once the entities are read) KeyError for `text` |
| Nerf.DocDictRoundTrip | nerf.py:153-159 | `DocSpec.from_dict(d.to_dict()) == d`, entity order included, when no entity has an `end` without a `start` |
| Nerf.NerfToJson | nerf.py:162-166 | the written list has one document dictionary per spec, in order |
| Nerf.NerfFromJson | nerf.py:169-173 | the read succeeds exactly when the value is iterable and `from_dict` succeeds on every element; the read list has one spec per element, each `from_dict` of that element, in order; otherwise the error is the iteration's own, or that of the first element `from_dict` rejects |
| Nerf.NerfRoundTrip | nerf.py:162-173 | writing a list of specs and reading it back gives the same list, in the same order, when no entity has an `end` without a `start` |
| Nerf.FromDoc | nerf.py:148-151 | `from_doc` keeps the text and has one `from_span` per entity, in entity order |
| Nerf.FromDocFixed | nerf.py:148-151 | `from_doc` with the corrected `from_span`: the same text, one entity per entity, in order |
| Nerf.SpecToDoc | nerf.py:142-146 | the document `to_doc` builds has the spec's text and one resolved span per entity, in order, and fails exactly when some entity does not resolve |
| Nerf.ToDoc | nerf.py:142-146 | the loop that reassigns `doc.ents` with one more span per entity builds exactly `SpecToDoc(spec)`, stopping at the first failure |
| Nerf.DocConversionKeepsEntities | nerf.py:142-151 | converting a document to a spec and back keeps the text, and each entity's label and the characters it covers |
| Nerf.DocConversionOverlapCounterexample | nerf.py:145 | in `"1 1 1"` with entities `[0, 1)` and `[2, 5)`, the second comes back as `[0, 3)`, on top of the first |
| Nerf.DocRoundTripFixed | nerf.py:142-151 | with the corrected `from_span`, converting a document to a spec and back gives the document itself |
| Nerf.DocSpecsToDocBin | nerf.py:176-185 | `docspecs_to_docbin` adds the documents of the specs in order, and fails with the first spec that fails |
| Nerf.DocBinToDocSpecs | nerf.py:188-191 | one `from_doc` spec per document of the DocBin, in order |
| Nerf.DocBinToNerf | nerf.py:194-196 | the `.nerf` value written for a DocBin is the list of `to_dict` dictionaries of its `from_doc` specs, and reads back as those specs |
| Nerf.DocBinRoundTrip | nerf.py:188-201 | a DocBin written as `.nerf` and read back into a DocBin has as many documents, in order, each with its text, its number of entities, and each entity's label and covered characters |
| Nerf.DocBinOverlapCounterexample | nerf.py:109 | the DocBin holding `"1 1 1"` with entity `[2, 5)` comes back from `.nerf` with the entity at `[0, 3)` |
| Nerf.DocBinToDocSpecsFixed | nerf.py:188-191 | `docbin_to_docspecs` with the corrected `from_span`: one spec per document, in order |
| Nerf.DocBinRoundTripFixed | nerf.py:95-98 | with the corrected `from_span`, a DocBin written as `.nerf` and read back gives exactly the same documents, in order |
| Nerf.NerfToDocBin | nerf.py:199-201 | `nerf_to_docbin` reads the specs and converts each one in order, passing on a read error |
| Nerf.PathName | nerf.py:211-215 | `Path(p).name` holds no `/` |
| Nerf.FormatOf | nerf.py:214-217 | the format used is the one given, or else one inferred from the path that holds no dot |
| Nerf.PathSuffix | nerf.py:215 | `Path(p).suffix` is empty or a dot followed by no other dot |
| Nerf.PlainPathName | nerf.py:211-215 | the name of `dir/name` is `name` for a plain file name |
| Nerf.Cli | nerf.py:204-231 | `cli` accepts exactly spacy→nerf and nerf→spacy; it rejects an input format outside {spacy, nerf} first, then such an output format, then same-format pairs; a missing format comes from the path's suffix without its leading dots; every rejection comes before any file is read |
| Nerf.InferredFormat | nerf.py:214-217 | with no format given, `dir/base.ext` has format `ext` |
| Nerf.HiddenFileHasNoFormat | nerf.py:214-222 | with no format given, a hidden file `dir/.ext` has the empty format, which `cli` rejects |
| Xml2Spacy.StripTokens | xml2spacy.py:38 | one token per child element, in order, with the stripped text and the element's tag; an empty element raises, and the first one is reported |
| Xml2Spacy.XmlToTokenLists | xml2spacy.py:34-38 | one token list per document node, in order; it fails exactly when some node has an empty element, with the error of the first such node |
| Xml2Spacy.Runs | xml2spacy.py:64-76 | the runs of a token list are non-empty exactly when the list is |
| Xml2Spacy.RunsSpellTokens | xml2spacy.py:64-76 | the runs, read in order, spell out the tokens: no token is lost, added or moved |
| Xml2Spacy.RunsNonEmpty | xml2spacy.py:65-71 | every run holds at least one token |
| Xml2Spacy.RunsAlternate | xml2spacy.py:69-76 | neighbouring runs have different labels, so the runs are maximal |
| Xml2Spacy.DocText | xml2spacy.py:43 | the document text is empty for no tokens, and otherwise as long as the token texts with exactly one space between each neighbouring pair |
| Xml2Spacy.TokenInDocText | xml2spacy.py:43 | in the document text, token `k` sits right after the earlier tokens and their spaces, and is followed by a space unless it is the last |
| Xml2Spacy.DocTextIsJoinOfRuns | xml2spacy.py:43 | the document text is also the run texts joined by single spaces |
| Xml2Spacy.Entities | xml2spacy.py:54-78 | one entity per run, except a final run whose text is empty; no tokens, no entities |
| Xml2Spacy.TokensToEntities | xml2spacy.py:54-78 | the loop over `start`, `text` and `label` yields exactly `Entities(tokens)` |
| Xml2Spacy.EntityCoversRun | xml2spacy.py:61-78 | entity `k` has run `k`'s label and starts where run `k` starts in the document text; it covers the run's text with one trailing comma left out exactly when the run's text ends in one |
| Xml2Spacy.RunEntity | xml2spacy.py:72 | the entity of a run starts where the run starts, has its label, and ends at the run's end, one character earlier when the run's text ends in a comma |
| Xml2Spacy.SpanOfRun | xml2spacy.py:72 | the span of a run found at offset `w` lies in the text and covers the run's text, or that text minus its one trailing comma |
| Xml2Spacy.CommaDropped | xml2spacy.py:72 | at most one trailing comma is removed, and only a trailing one |
| Xml2Spacy.NextEntityAfter | xml2spacy.py:69-76 | each entity ends at least one character before the next one starts, and the two have different labels |
| Xml2Spacy.EntitiesOrdered | xml2spacy.py:61-78 | entities are in increasing order, pairwise separated, and lie within `[0, len(text)]` |
| Xml2Spacy.TokensToDoc | xml2spacy.py:41-51 | the document has the joined token texts and the merged entities, and every entity lies inside its text |
| Xml2Spacy.TokenListsToDocBin | xml2spacy.py:81-84 | one document per token list, in order |
| Xml2Spacy.Convert | xml2spacy.py:87-93 | the DocBin holds one converted document per XML document node, in order, or the first empty-element error |
| Xml2Spacy.EntityWithoutComma | xml2spacy.py:72 | a run whose text does not end in a comma yields an entity over its whole text |
| Xml2Spacy.RunsOfSampleShape | xml2spacy.py:10 | tokens labelled A B C C C C C D make four runs, the five C tokens one of them |
| Xml2Spacy.SampleRuns | xml2spacy.py:10 | the five StreetName tokens of the first sample address merge into one run |
| Xml2Spacy.SampleText | xml2spacy.py:10 | the sample's text is `"8128 S. DR MARTIN LUTHER KING JR Drive"` |
| Xml2Spacy.SampleEntities | xml2spacy.py:10 | the sample's entities are AddressNumber [0,4), StreetNamePreDirectional [5,7), StreetName [8,32) and StreetNamePostType [33,38) |
| Eval.Labels | eval.py:36-37 | the label list has one label per entity, in entity order |
| Eval.IsMisprediction | eval.py:35-38 | `is_misprediction` compares the two label lists; a prediction whose entities equal the reference's is never a misprediction |
| Eval.MispredictionIff | eval.py:35-38 | an example is mispredicted exactly when the entity counts differ or the labels differ at some position |
| Eval.SwapIsMisprediction | eval.py:36-38 | exchanging two differently labelled entities of an exact prediction makes it a misprediction |
| Eval.ExtraEntityIsMisprediction | eval.py:36-38 | one extra entity anywhere in an exact prediction makes it a misprediction |
| Eval.OnlyLabelsCompared | eval.py:36-37 | examples whose documents carry the same label sequences are both mispredicted or both not, whatever their texts and boundaries |
| Eval.Shown | eval.py:43-45 | the positions shown are exactly the mispredicted ones, in increasing order |
| Eval.RowFor | eval.py:46-60 | the row for one example shows its reference in the left panel titled "Reference" and its prediction in the right panel titled "Predicted", under two different widget keys |
| Eval.Rows | eval.py:43-60 | one row per shown position |
| Eval.VizExamples | eval.py:41-60 | the loop that skips correct predictions draws exactly `Rows(examples)` |
| Eval.RowsAreShownExamples | eval.py:46-60 | row `k` shows the reference and the prediction of the `k`-th shown example, under keys `f"{i}_ref"`/`f"{i}_pred"` and titles Reference/Predicted |
| Eval.KeyInjective | eval.py:51 | two keys with the same suffix are equal only for the same position |
| Eval.RefKeyIsNotPredKey | eval.py:51-58 | a `_ref` key never equals a `_pred` key |
| Eval.KeysDistinct | eval.py:43-58 | all widget keys that `viz_examples` draws are distinct |

## Left out

- File I/O is not modelled. That covers `json.dump`/`json.load` and the indent layout, `DocBin.from_disk`/`to_disk`, and directory creation. The codec stops at the in-memory JSON value (`Json.Json`); JSON floats are not represented.
- XML parsing with ElementTree is not modelled. A document node is given as its child elements: a tag and an optional text.
- spaCy's own behaviour is not modelled. That covers:
  - `nlp.make_doc` tokenisation;
  - `doc.char_span`'s token alignment, which returns None on a misaligned range;
  - the `doc.ents` setter's overlap checks and its re-sorting of entities into token order: a model document keeps its entities in the order they were assigned, so a `.nerf` spec whose entities are out of order or overlap converts (`Nerf.SpecToDoc`) to a document the real setter would reorder or refuse;
  - the DocBin container, which is the sequence of its documents.
- Loading the model and running it (`load_examples`, eval.py:17-32) are not modelled, nor the streamlit rendering (`set_page_config`, `columns`, `visualize_ner`). A drawn row is recorded as the two panels it shows: document, key and title.
- The typer and argparse wiring, and labels.py, are not modelled. labels.py holds only string constants, and labels are arbitrary strings here.
- Nerf.EntFromDict: it is stricter than Python's `EntSpec(**d)`. A non-string `text`/`label`, or a non-integer `start`/`end`, is rejected as `TypeMismatch`, whereas the frozen dataclass would accept any value.
- Nerf.DocFromDict: likewise, it rejects a `text` that is not a string.
- Nerf.Elements: iterating a non-empty JSON object or string is reported as a type error straight away. In Python the loop runs and the first element (a `str`) makes `EntSpec(**x)` or `x["ents"]` raise TypeError.
- Nerf.DocConversionKeepsEntities: its conversion always succeeds only because the overlap check of spaCy's `doc.ents` setter is not modelled. When a moved entity lands on another one, the real `to_doc` raises ValueError at nerf.py:145. In `"1 1 1"` with entities `[0, 1)` and `[2, 5)`, the second moves to `[0, 3)` (`Nerf.DocConversionOverlapCounterexample`).
- Nerf.DocBinRoundTrip: for the same reason, the real `nerf_to_docbin` raises on such a document instead of returning it.
- Nerf.ToSpan: it follows the code, not the documentation. Stored offsets are passed through without being checked against the text. A stored `start` without `end` is reported as `MissingEnd`, where spaCy would raise on `char_span(start, None)`.
- Nerf.PathSuffix: POSIX paths only. Windows drive letters and backslash separators of pathlib are not modelled.
- Nerf.EntFromDict: the TypeError for missing arguments is modelled by the names it reports (`MissingArguments`), not by its message text.

## Findings

| source | as written | input that shows it | evidently intended | confidence | as-written member | corrected member |
|---|---|---|---|---|---|---|
| nerf.py:109 | offsets are left out when `doc.text.count(span.text) == 1`; `str.count` does not count overlapping matches | document `"1 1 1"`, entity `[2, 5)` with text `"1 1"`: `count` is 1, so no offsets are stored, and `to_span` resolves the entity to `[0, 3)`; with a second entity `[0, 1)` the moved one overlaps it and the conversion back to a spaCy document raises | leave offsets out only when the text occurs at exactly one position, overlaps included, so that `to_span(from_span(s)) == s` as the docstring at nerf.py:95-98 says | not executed | Nerf.FromSpanOverlapCounterexample | Nerf.FromSpanFixed |
