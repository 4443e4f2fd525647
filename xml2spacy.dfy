/**
 * The XML-to-spaCy corpus converter. Each document node of the legacy XML
 * corpus is a list of labelled tokens; the document text is the token texts
 * joined by single spaces, and every maximal run of consecutive tokens that
 * share a label becomes one entity, with one trailing comma left out of it.
 *
 * Parsing the XML file, spaCy's tokenisation and writing the DocBin are not
 * modelled: a document node is given as its child elements, and a DocBin as
 * the sequence of its documents.
 */
module Xml2Spacy {
  import opened Wrappers
  import opened Text
  import opened Docs

  /** `Token`: a token's text and its label. */
  datatype Token = Token(text: string, tag: string)

  /** A child of a document node: its tag (the label) and its text, `None` for an empty element. */
  datatype XmlElement = XmlElement(tag: string, text: Option<string>)

  /** `None.strip()` on an empty element raises AttributeError. */
  datatype XmlError = EmptyElement(tag: string)

  // ---------------------------------------------------------------------------
  // xml_to_token_lists
  // ---------------------------------------------------------------------------

  /** The position of the first empty element, where the comprehension raises. */
  function FirstEmpty(elems: seq<XmlElement>): (i: nat)
    requires exists i :: 0 <= i < |elems| && elems[i].text.None?
    ensures i < |elems| && elems[i].text.None?
    ensures forall j :: 0 <= j < i ==> elems[j].text.Some?
  {
    if elems[0].text.None? then 0
    else
      var i :| 0 <= i < |elems| && elems[i].text.None?;
      assert elems[1..][i - 1] == elems[i];
      1 + FirstEmpty(elems[1..])
  }

  /**
   * The comprehension of `xml_to_token_lists` for one document node: a token
   * per child, its text stripped of leading and trailing whitespace and its
   * label the child's tag; an empty child raises.
   */
  function StripTokens(elems: seq<XmlElement>): (r: Result<seq<Token>, XmlError>)
    ensures r.Ok? <==> forall i :: 0 <= i < |elems| ==> elems[i].text.Some?
    ensures r.Ok? ==> |r.value| == |elems| && forall i :: 0 <= i < |elems| ==>
      r.value[i] == Token(Strip(elems[i].text.value), elems[i].tag)
    ensures r.Err? ==> r.error == EmptyElement(elems[FirstEmpty(elems)].tag)
  {
    if forall i :: 0 <= i < |elems| ==> elems[i].text.Some? then
      Ok(seq(|elems|, i requires 0 <= i < |elems| => Token(Strip(elems[i].text.value), elems[i].tag)))
    else
      Err(EmptyElement(elems[FirstEmpty(elems)].tag))
  }

  /** `list(xml_to_token_lists(path))`: the token list of every document node, in order. */
  function XmlToTokenLists(docs: seq<seq<XmlElement>>): (r: Result<seq<seq<Token>>, XmlError>)
    ensures r.Ok? <==> forall i :: 0 <= i < |docs| ==> StripTokens(docs[i]).Ok?
    ensures r.Ok? ==> |r.value| == |docs| && forall i :: 0 <= i < |docs| ==> StripTokens(docs[i]) == Ok(r.value[i])
    ensures r.Err? ==> exists i :: (0 <= i < |docs| && StripTokens(docs[i]) == Err(r.error) &&
      forall j :: 0 <= j < i ==> StripTokens(docs[j]).Ok?)
  {
    if |docs| == 0 then Ok([])
    else
      match StripTokens(docs[0])
      case Err(e) => Err(e)
      case Ok(tokens) =>
        match XmlToTokenLists(docs[1..])
        case Err(e) =>
          assert forall i :: 0 <= i < |docs| - 1 ==> docs[1..][i] == docs[i + 1];
          Err(e)
        case Ok(rest) => Ok([tokens] + rest)
  }

  // ---------------------------------------------------------------------------
  // Runs of equal labels
  // ---------------------------------------------------------------------------

  function TokenTexts(tokens: seq<Token>): seq<string> {
    seq(|tokens|, i requires 0 <= i < |tokens| => tokens[i].text)
  }

  /**
   * The document text `tokens_to_doc` builds: `" ".join(token.text for token in tokens)`,
   * as long as the token texts with one space between each neighbouring pair.
   */
  function DocText(tokens: seq<Token>): (t: string)
    ensures |tokens| == 0 ==> t == ""
    ensures |tokens| > 0 ==> |t| + 1 == Width(TokenTexts(tokens))
  {
    Join(TokenTexts(tokens))
  }

  /** A run of consecutive tokens with one label: the label and the tokens' texts. */
  datatype Run = Run(tag: string, texts: seq<string>)

  /** The text `tokens_to_entities` accumulates for a run: its token texts joined by spaces. */
  function RunText(r: Run): string {
    Join(r.texts)
  }

  function RunTexts(rs: seq<Run>): seq<string> {
    seq(|rs|, k requires 0 <= k < |rs| => RunText(rs[k]))
  }

  function RunTokens(r: Run): seq<Token> {
    seq(|r.texts|, i requires 0 <= i < |r.texts| => Token(r.texts[i], r.tag))
  }

  /** The tokens the runs stand for, in order. */
  function Flatten(rs: seq<Run>): seq<Token> {
    if |rs| == 0 then [] else Flatten(rs[..|rs| - 1]) + RunTokens(rs[|rs| - 1])
  }

  lemma FlattenSnoc(rs: seq<Run>, r: Run)
    ensures Flatten(rs + [r]) == Flatten(rs) + RunTokens(r)
  {
    assert (rs + [r])[..|rs|] == rs;
  }

  /** One more token: it extends the last run when it has that run's label, and opens a new run otherwise. */
  function Push(rs: seq<Run>, t: Token): (rs': seq<Run>)
    ensures |rs'| > 0
  {
    if |rs| > 0 && rs[|rs| - 1].tag == t.tag then
      rs[..|rs| - 1] + [Run(t.tag, rs[|rs| - 1].texts + [t.text])]
    else
      rs + [Run(t.tag, [t.text])]
  }

  /** The runs of the first `n` tokens, built token by token. */
  function RunsUpTo(tokens: seq<Token>, n: nat): (rs: seq<Run>)
    requires n <= |tokens|
    ensures n > 0 <==> |rs| > 0
  {
    if n == 0 then [] else Push(RunsUpTo(tokens, n - 1), tokens[n - 1])
  }

  /** The maximal runs of equal labels in `tokens`. */
  function Runs(tokens: seq<Token>): (rs: seq<Run>)
    ensures |tokens| > 0 <==> |rs| > 0
  {
    RunsUpTo(tokens, |tokens|)
  }

  lemma {:induction false} RunsUpToNonEmpty(tokens: seq<Token>, n: nat)
    requires n <= |tokens|
    ensures forall k :: 0 <= k < |RunsUpTo(tokens, n)| ==> |RunsUpTo(tokens, n)[k].texts| > 0
  {
    if n > 0 {
      RunsUpToNonEmpty(tokens, n - 1);
    }
  }

  /** Every run holds at least one token. */
  lemma RunsNonEmpty(tokens: seq<Token>)
    ensures forall k :: 0 <= k < |Runs(tokens)| ==> |Runs(tokens)[k].texts| > 0
  {
    RunsUpToNonEmpty(tokens, |tokens|);
  }

  lemma {:induction false} RunsUpToAlternate(tokens: seq<Token>, n: nat)
    requires n <= |tokens|
    ensures forall k :: 0 < k < |RunsUpTo(tokens, n)| ==>
      RunsUpTo(tokens, n)[k - 1].tag != RunsUpTo(tokens, n)[k].tag
  {
    if n > 0 {
      RunsUpToAlternate(tokens, n - 1);
    }
  }

  /** Neighbouring runs carry different labels: the runs are maximal. */
  lemma RunsAlternate(tokens: seq<Token>)
    ensures forall k :: 0 < k < |Runs(tokens)| ==> Runs(tokens)[k - 1].tag != Runs(tokens)[k].tag
  {
    RunsUpToAlternate(tokens, |tokens|);
  }

  lemma FlattenPush(rs: seq<Run>, t: Token)
    ensures Flatten(Push(rs, t)) == Flatten(rs) + [t]
  {
    if |rs| > 0 && rs[|rs| - 1].tag == t.tag {
      var last := rs[|rs| - 1];
      var merged := Run(t.tag, last.texts + [t.text]);
      var prefix := rs[..|rs| - 1];
      assert rs == prefix + [last];
      FlattenSnoc(prefix, last);
      FlattenSnoc(prefix, merged);
      assert RunTokens(merged) == RunTokens(last) + [t];
    } else {
      FlattenSnoc(rs, Run(t.tag, [t.text]));
      assert RunTokens(Run(t.tag, [t.text])) == [t];
    }
  }

  lemma FlattenStep(tokens: seq<Token>, n: nat)
    requires 0 < n <= |tokens|
    ensures Flatten(RunsUpTo(tokens, n)) == Flatten(RunsUpTo(tokens, n - 1)) + [tokens[n - 1]]
  {
    FlattenPush(RunsUpTo(tokens, n - 1), tokens[n - 1]);
  }

  lemma {:induction false} RunsUpToSpellTokens(tokens: seq<Token>, n: nat)
    requires n <= |tokens|
    ensures Flatten(RunsUpTo(tokens, n)) == tokens[..n]
  {
    if n > 0 {
      assert tokens[..n] == tokens[..n - 1] + [tokens[n - 1]];
      RunsUpToSpellTokens(tokens, n - 1);
      FlattenStep(tokens, n);
    }
  }

  /** The runs spell out the tokens, in order: no token is lost, added or moved. */
  lemma RunsSpellTokens(tokens: seq<Token>)
    ensures Flatten(Runs(tokens)) == tokens
  {
    RunsUpToSpellTokens(tokens, |tokens|);
    assert tokens[..|tokens|] == tokens;
  }

  lemma TokenTextsAppend(a: seq<Token>, b: seq<Token>)
    ensures TokenTexts(a + b) == TokenTexts(a) + TokenTexts(b)
  {
  }

  lemma RunTextsSnoc(rs: seq<Run>, r: Run)
    ensures RunTexts(rs + [r]) == RunTexts(rs) + [RunText(r)]
  {
  }

  /** Joining the runs' joined texts is joining all their token texts. */
  lemma {:induction false} JoinOfRuns(rs: seq<Run>)
    requires forall k :: 0 <= k < |rs| ==> |rs[k].texts| > 0
    ensures Join(RunTexts(rs)) == Join(TokenTexts(Flatten(rs)))
  {
    if |rs| > 0 {
      var init, r := rs[..|rs| - 1], rs[|rs| - 1];
      assert rs == init + [r];
      JoinOfRuns(init);
      RunTextsSnoc(init, r);
      TokenTextsAppend(Flatten(init), RunTokens(r));
      assert TokenTexts(RunTokens(r)) == r.texts;
      if |init| > 0 {
        assert |Flatten(init)| > 0 by { FlattenNonEmpty(init); }
        JoinAppend(RunTexts(init), [RunText(r)]);
        JoinAppend(TokenTexts(Flatten(init)), r.texts);
      } else {
        assert Flatten(rs) == RunTokens(r) by { assert rs[..0] == []; }
        assert RunTexts(rs) == [RunText(r)];
      }
    }
  }

  lemma {:induction false} FlattenNonEmpty(rs: seq<Run>)
    requires |rs| > 0 && |rs[0].texts| > 0
    ensures |Flatten(rs)| > 0
  {
    if |rs| > 1 {
      FlattenNonEmpty(rs[..|rs| - 1]);
    }
  }

  /**
   * Token `k` sits in the document text right after the `k` tokens before it,
   * each followed by its space, and every token but the last is followed by a space.
   */
  lemma TokenInDocText(tokens: seq<Token>, k: nat)
    requires k < |tokens|
    ensures var w, t := Width(TokenTexts(tokens)[..k]), tokens[k].text;
      && w + |t| <= |DocText(tokens)| && DocText(tokens)[w..w + |t|] == t
      && (k + 1 < |tokens| ==> w + |t| < |DocText(tokens)| && DocText(tokens)[w + |t|] == ' ')
  {
    var parts := TokenTexts(tokens);
    JoinAt(parts, k);
    if k + 1 < |tokens| {
      JoinSpaceAt(parts, k);
    }
  }

  /** `" ".join` of the token texts equals `" ".join` of the run texts. */
  lemma DocTextIsJoinOfRuns(tokens: seq<Token>)
    ensures DocText(tokens) == Join(RunTexts(Runs(tokens)))
  {
    RunsSpellTokens(tokens);
    RunsNonEmpty(tokens);
    JoinOfRuns(Runs(tokens));
  }

  // ---------------------------------------------------------------------------
  // tokens_to_entities
  // ---------------------------------------------------------------------------

  /** The span `tokens_to_entities` yields for run `r` starting at `start`: one trailing comma left out. */
  function RunEntity(start: int, r: Run): (e: CharSpan)
    ensures e.start == start && e.tag == r.tag
    ensures e.end == start + |RunText(r)| - (if EndsWith(RunText(r), ",") then 1 else 0)
  {
    CharSpan(start, start + |RemoveSuffix(RunText(r), ",")|, r.tag)
  }

  /** Run `k` of `rs` starts `Width(RunTexts(rs)[..k])` characters into the joined text. */
  function RunEntities(rs: seq<Run>): (es: seq<CharSpan>)
    ensures |es| == |rs|
  {
    seq(|rs|, k requires 0 <= k < |rs| => RunEntity(Width(RunTexts(rs)[..k]), rs[k]))
  }

  /** How many runs yield an entity: all of them, except a last run whose text is empty. */
  function EmittedRuns(rs: seq<Run>): nat {
    if |rs| > 0 && RunText(rs[|rs| - 1]) == "" then |rs| - 1 else |rs|
  }

  /** The entities of `tokens`, one per maximal run of equal labels, in order. */
  function Entities(tokens: seq<Token>): (es: seq<CharSpan>)
    ensures |es| == EmittedRuns(Runs(tokens)) && |es| <= |Runs(tokens)|
    ensures tokens == [] ==> es == []
  {
    var rs := Runs(tokens);
    RunEntities(rs)[..EmittedRuns(rs)]
  }

  lemma RunEntitiesSnoc(rs: seq<Run>, r: Run)
    ensures RunEntities(rs + [r]) == RunEntities(rs) + [RunEntity(Width(RunTexts(rs)), r)]
    ensures Width(RunTexts(rs + [r])) == Width(RunTexts(rs)) + |RunText(r)| + 1
  {
    var rs' := rs + [r];
    RunTextsSnoc(rs, r);
    assert RunTexts(rs')[..|rs|] == RunTexts(rs);
    forall k | 0 <= k < |rs|
      ensures RunTexts(rs')[..k] == RunTexts(rs)[..k]
    {
    }
  }

  /** Token `i`, with the current run's label, extends that run. */
  lemma RunsExtend(tokens: seq<Token>, i: nat, done: seq<Run>, cur: seq<string>)
    requires i < |tokens| && RunsUpTo(tokens, i) == done + [Run(tokens[i].tag, cur)]
    ensures RunsUpTo(tokens, i + 1) == done + [Run(tokens[i].tag, cur + [tokens[i].text])]
  {
    assert (done + [Run(tokens[i].tag, cur)])[..|done|] == done;
  }

  /** Token `i`, the first one or one with another label than the current run, opens a new run. */
  lemma RunsOpen(tokens: seq<Token>, i: nat, done: seq<Run>)
    requires i < |tokens| && RunsUpTo(tokens, i) == done
    requires |done| == 0 || done[|done| - 1].tag != tokens[i].tag
    ensures RunsUpTo(tokens, i + 1) == done + [Run(tokens[i].tag, [tokens[i].text])]
  {
  }

  /** The entities once the last run `r` is known: `r` yields one unless its text is empty. */
  lemma EntitiesOfLastRun(tokens: seq<Token>, done: seq<Run>, r: Run)
    requires Runs(tokens) == done + [r]
    ensures Entities(tokens) ==
      RunEntities(done) + (if RunText(r) == "" then [] else [RunEntity(Width(RunTexts(done)), r)])
  {
    RunEntitiesSnoc(done, r);
    assert RunEntities(done + [r])[..|done|] == RunEntities(done);
  }

  /**
   * `tokens_to_entities`: walks the tokens keeping the running `start`, the
   * current run's `text` and its `label`, and yields a span each time the
   * label changes and once more at the end if the last run's text is not empty.
   */
  method TokensToEntities(tokens: seq<Token>) returns (spans: seq<CharSpan>)
    ensures spans == Entities(tokens)
  {
    var start := 0;
    var text := "";
    var tag: Option<string> := None;
    spans := [];
    ghost var done: seq<Run> := [];
    ghost var cur: seq<string> := [];
    for i := 0 to |tokens|
      invariant i == 0 ==> tag.None? && text == "" && done == []
      invariant i > 0 ==> tag.Some? && |cur| > 0 && text == Join(cur)
      invariant i > 0 ==> RunsUpTo(tokens, i) == done + [Run(tag.value, cur)]
      invariant spans == RunEntities(done) && start == Width(RunTexts(done))
    {
      var token := tokens[i];
      if tag.None? {
        RunsOpen(tokens, i, done);
        tag, text, cur := Some(token.tag), token.text, [token.text];
      } else if token.tag == tag.value {
        RunsExtend(tokens, i, done, cur);
        JoinSnoc(cur, token.text);
        text, cur := text + " " + token.text, cur + [token.text];
      } else {
        ghost var r := Run(tag.value, cur);
        assert RunEntity(start, r) == CharSpan(start, start + |RemoveSuffix(text, ",")|, tag.value);
        RunEntitiesSnoc(done, r);
        RunsOpen(tokens, i, done + [r]);
        spans := spans + [CharSpan(start, start + |RemoveSuffix(text, ",")|, tag.value)];
        start := start + |text| + 1;
        done := done + [r];
        tag, text, cur := Some(token.tag), token.text, [token.text];
      }
    }
    if |tokens| == 0 {
      assert spans == [] && text == "";
    } else {
      ghost var r := Run(tag.value, cur);
      assert RunText(r) == text;
      assert RunEntity(start, r) == CharSpan(start, start + |RemoveSuffix(text, ",")|, tag.value);
      EntitiesOfLastRun(tokens, done, r);
    }
    if text != "" {
      spans := spans + [CharSpan(start, start + |RemoveSuffix(text, ",")|, tag.value)];
    }
  }

  // ---------------------------------------------------------------------------
  // What the entities promise
  // ---------------------------------------------------------------------------

  /**
   * Entity `k` carries the label of run `k`, starts where run `k` starts in the
   * document text, and covers the run's text with at most one trailing comma
   * left out.
   */
  lemma EntityCoversRun(tokens: seq<Token>, k: nat)
    requires k < |Entities(tokens)|
    ensures var e, r, text := Entities(tokens)[k], Runs(tokens)[k], DocText(tokens);
      && e.tag == r.tag
      && e.start == Width(RunTexts(Runs(tokens))[..k])
      && e.start + |RunText(r)| <= |text|
      && text[e.start..e.start + |RunText(r)|] == RunText(r)
      && Within(text, e)
      && (SpanText(text, e) == RunText(r) || SpanText(text, e) + "," == RunText(r))
      && (SpanText(text, e) + "," == RunText(r) <==> EndsWith(RunText(r), ","))
  {
    var rs, text := Runs(tokens), DocText(tokens);
    var r, w := rs[k], Width(RunTexts(rs)[..k]);
    RunInText(tokens, k);
    SpanOfRun(text, w, r);
    EntityIsRunEntity(tokens, k);
  }

  /** The span of a run whose text sits at offset `w` of `text` covers that text, bar one trailing comma. */
  lemma SpanOfRun(text: string, w: int, r: Run)
    requires 0 <= w && w + |RunText(r)| <= |text| && text[w..w + |RunText(r)|] == RunText(r)
    ensures var e, rt := RunEntity(w, r), RunText(r);
      && Within(text, e)
      && (SpanText(text, e) == rt || SpanText(text, e) + "," == rt)
      && (SpanText(text, e) + "," == rt <==> EndsWith(rt, ","))
  {
    var rt := RunText(r);
    CommaDropped(rt);
    var kept := RemoveSuffix(rt, ",");
    assert text[w..w + |kept|] == text[w..w + |rt|][..|kept|];
  }

  lemma EntityIsRunEntity(tokens: seq<Token>, k: nat)
    requires k < |Entities(tokens)|
    ensures Entities(tokens)[k] == RunEntity(Width(RunTexts(Runs(tokens))[..k]), Runs(tokens)[k])
  {
  }

  /** Run `k` appears in the document text at its offset. */
  lemma RunInText(tokens: seq<Token>, k: nat)
    requires k < |Runs(tokens)|
    ensures var w, rt := Width(RunTexts(Runs(tokens))[..k]), RunText(Runs(tokens)[k]);
      w + |rt| <= |DocText(tokens)| && DocText(tokens)[w..w + |rt|] == rt
  {
    var parts := RunTexts(Runs(tokens));
    JoinAt(parts, k);
    assert parts[k] == RunText(Runs(tokens)[k]);
    DocTextIsJoinOfRuns(tokens);
  }

  /** `s.removesuffix(",")` is `s` or `s` without its one trailing comma. */
  lemma CommaDropped(s: string)
    ensures var kept := RemoveSuffix(s, ",");
      && |kept| <= |s| && s[..|kept|] == kept
      && (kept == s || kept + "," == s)
      && (kept + "," == s <==> EndsWith(s, ","))
  {
    var kept := RemoveSuffix(s, ",");
    if EndsWith(s, ",") {
      assert s[..|kept|] == (kept + ",")[..|kept|];
    }
  }

  /** The next entity starts at least one character after the previous one ends, with a different label. */
  lemma NextEntityAfter(tokens: seq<Token>, k: nat)
    requires k + 1 < |Entities(tokens)|
    ensures Entities(tokens)[k].end < Entities(tokens)[k + 1].start
    ensures Entities(tokens)[k].tag != Entities(tokens)[k + 1].tag
  {
    var rs := Runs(tokens);
    var parts := RunTexts(rs);
    assert parts[..k + 1][..k] == parts[..k];
    assert Width(parts[..k + 1]) == Width(parts[..k]) + |parts[k]| + 1;
    assert parts[k] == RunText(rs[k]);
    RunsAlternate(tokens);
    EntityIsRunEntity(tokens, k);
    EntityIsRunEntity(tokens, k + 1);
    assert Entities(tokens)[k].end <= Width(parts[..k]) + |parts[k]|;
  }

  /**
   * The entities are in increasing order, pairwise separated by at least one
   * character, and lie inside the document text.
   */
  lemma {:induction false} EntitiesOrdered(tokens: seq<Token>, k: nat, l: nat)
    requires k < l < |Entities(tokens)|
    decreases l - k
    ensures Entities(tokens)[k].end < Entities(tokens)[l].start
    ensures 0 <= Entities(tokens)[k].start && Entities(tokens)[l].end <= |DocText(tokens)|
  {
    EntityCoversRun(tokens, k);
    EntityCoversRun(tokens, l);
    NextEntityAfter(tokens, k);
    if k + 1 < l {
      EntitiesOrdered(tokens, k + 1, l);
      EntityCoversRun(tokens, k + 1);
    }
  }

  // ---------------------------------------------------------------------------
  // tokens_to_doc and the corpus
  // ---------------------------------------------------------------------------

  /** `tokens_to_doc`: the joined text, with the merged entities attached. */
  method TokensToDoc(tokens: seq<Token>) returns (doc: Doc)
    ensures doc.text == DocText(tokens) && doc.ents == Entities(tokens)
    ensures WellFormedDoc(doc)
  {
    var spans := TokensToEntities(tokens);
    doc := Doc(Join(TokenTexts(tokens)), spans);
    forall k | 0 <= k < |spans|
      ensures Within(doc.text, spans[k])
    {
      EntityCoversRun(tokens, k);
    }
  }

  /** `token_lists_to_docbin`: one document per token list, in order. */
  method TokenListsToDocBin(lists: seq<seq<Token>>) returns (docs: seq<Doc>)
    ensures |docs| == |lists|
    ensures forall i :: 0 <= i < |lists| ==>
      docs[i] == Doc(DocText(lists[i]), Entities(lists[i]))
  {
    docs := [];
    for i := 0 to |lists|
      invariant |docs| == i
      invariant forall j :: 0 <= j < i ==>
        docs[j] == Doc(DocText(lists[j]), Entities(lists[j]))
    {
      var doc := TokensToDoc(lists[i]);
      docs := docs + [doc];
    }
  }

  /** `convert` without the files: the XML document nodes to the documents of the DocBin. */
  method Convert(xmlDocs: seq<seq<XmlElement>>) returns (r: Result<seq<Doc>, XmlError>)
    ensures r.Ok? <==> XmlToTokenLists(xmlDocs).Ok?
    ensures r.Err? ==> r == Err(XmlToTokenLists(xmlDocs).error)
    ensures r.Err? ==> exists i :: (0 <= i < |xmlDocs| && StripTokens(xmlDocs[i]) == Err(r.error) &&
      forall j :: 0 <= j < i ==> StripTokens(xmlDocs[j]).Ok?)
    ensures r.Ok? ==> |r.value| == |xmlDocs| && forall i :: 0 <= i < |xmlDocs| ==>
      var tokens := XmlToTokenLists(xmlDocs).value[i];
      r.value[i] == Doc(DocText(tokens), Entities(tokens))
  {
    var lists := XmlToTokenLists(xmlDocs);
    if lists.Err? {
      return Err(lists.error);
    }
    var docs := TokenListsToDocBin(lists.value);
    r := Ok(docs);
  }

  // ---------------------------------------------------------------------------
  // The example of the module's documentation
  // ---------------------------------------------------------------------------

  /** The first address of the sample corpus, as its labelled tokens. */
  function SampleTokens(): seq<Token> {
    [Token("8128", "AddressNumber"), Token("S.", "StreetNamePreDirectional"),
     Token("DR", "StreetName"), Token("MARTIN", "StreetName"), Token("LUTHER", "StreetName"),
     Token("KING", "StreetName"), Token("JR", "StreetName"), Token("Drive", "StreetNamePostType")]
  }

  /** The first three of eight tokens labelled A B C C C C C D open three runs. */
  lemma RunsOfSampleHead(tokens: seq<Token>)
    requires |tokens| == 8
    requires tokens[0].tag != tokens[1].tag && tokens[1].tag != tokens[2].tag
    ensures RunsUpTo(tokens, 3) == [
      Run(tokens[0].tag, [tokens[0].text]), Run(tokens[1].tag, [tokens[1].text]),
      Run(tokens[2].tag, [tokens[2].text])]
  {
    var a, p := Run(tokens[0].tag, [tokens[0].text]), Run(tokens[1].tag, [tokens[1].text]);
    var c := Run(tokens[2].tag, [tokens[2].text]);
    assert RunsUpTo(tokens, 0) == [];
    assert RunsUpTo(tokens, 1) == [a];
    assert RunsUpTo(tokens, 2) == [a] + [p];
    assert RunsUpTo(tokens, 3) == [a] + [p] + [c];
    assert [a] + [p] + [c] == [a, p, c];
  }

  /**
   * Eight tokens labelled A B C C C C C D, with neighbouring labels A, B, C, D
   * all different, make four runs.
   */
  lemma RunsOfSampleShape(tokens: seq<Token>)
    requires |tokens| == 8
    requires tokens[0].tag != tokens[1].tag && tokens[1].tag != tokens[2].tag
    requires forall i :: 2 < i < 7 ==> tokens[i].tag == tokens[2].tag
    requires tokens[7].tag != tokens[2].tag
    ensures Runs(tokens) == [
      Run(tokens[0].tag, [tokens[0].text]), Run(tokens[1].tag, [tokens[1].text]),
      Run(tokens[2].tag, [tokens[2].text, tokens[3].text, tokens[4].text, tokens[5].text, tokens[6].text]),
      Run(tokens[7].tag, [tokens[7].text])]
  {
    var d2 := [Run(tokens[0].tag, [tokens[0].text]), Run(tokens[1].tag, [tokens[1].text])];
    var c1 := [tokens[2].text];
    var c2 := c1 + [tokens[3].text];
    var c3 := c2 + [tokens[4].text];
    var c4 := c3 + [tokens[5].text];
    var c5 := c4 + [tokens[6].text];
    assert c5 == [tokens[2].text, tokens[3].text, tokens[4].text, tokens[5].text, tokens[6].text];
    assert tokens[3].tag == tokens[4].tag == tokens[5].tag == tokens[6].tag == tokens[2].tag;
    var tag := tokens[2].tag;
    RunsOfSampleHead(tokens);
    assert RunsUpTo(tokens, 3) == d2 + [Run(tag, c1)];
    assert (d2 + [Run(tag, c1)])[..2] == d2;
    assert RunsUpTo(tokens, 4) == d2 + [Run(tag, c2)];
    assert (d2 + [Run(tag, c2)])[..2] == d2;
    assert RunsUpTo(tokens, 5) == d2 + [Run(tag, c3)];
    assert (d2 + [Run(tag, c3)])[..2] == d2;
    assert RunsUpTo(tokens, 6) == d2 + [Run(tag, c4)];
    assert (d2 + [Run(tag, c4)])[..2] == d2;
    assert RunsUpTo(tokens, 7) == d2 + [Run(tag, c5)];
    assert RunsUpTo(tokens, 8) == d2 + [Run(tag, c5)] + [Run(tokens[7].tag, [tokens[7].text])];
  }

  /** The five StreetName tokens of the sample merge into one run. */
  lemma SampleRuns()
    ensures Runs(SampleTokens()) == SampleRunList()
  {
    var tokens := SampleTokens();
    assert forall i :: 2 < i < 7 ==> tokens[i].tag == tokens[2].tag;
    RunsOfSampleShape(tokens);
  }

  /** The runs of the sample, as lists of words. */
  function SampleRunList(): seq<Run> {
    [Run("AddressNumber", ["8128"]), Run("StreetNamePreDirectional", ["S."]),
     Run("StreetName", ["DR", "MARTIN", "LUTHER", "KING", "JR"]), Run("StreetNamePostType", ["Drive"])]
  }

  lemma RunTextsOfSample(rs: seq<Run>)
    requires rs == SampleRunList()
    ensures RunTexts(rs) == ["8128", "S.", "DR MARTIN LUTHER KING JR", "Drive"]
  {
    var c1 := ["DR"];
    var c2 := c1 + ["MARTIN"];
    var c3 := c2 + ["LUTHER"];
    var c4 := c3 + ["KING"];
    var c5 := c4 + ["JR"];
    assert c5 == ["DR", "MARTIN", "LUTHER", "KING", "JR"];
    JoinSnoc(c1, "MARTIN");
    assert Join(c2) == "DR MARTIN";
    JoinSnoc(c2, "LUTHER");
    assert Join(c3) == "DR MARTIN LUTHER";
    JoinSnoc(c3, "KING");
    assert Join(c4) == "DR MARTIN LUTHER KING";
    JoinSnoc(c4, "JR");
    assert RunText(rs[2]) == "DR MARTIN LUTHER KING JR";
    assert RunText(rs[0]) == "8128" && RunText(rs[1]) == "S." && RunText(rs[3]) == "Drive";
  }

  lemma SampleRunTexts()
    ensures RunTexts(Runs(SampleTokens())) == ["8128", "S.", "DR MARTIN LUTHER KING JR", "Drive"]
  {
    SampleRuns();
    RunTextsOfSample(Runs(SampleTokens()));
  }

  lemma SampleWidths(parts: seq<string>)
    requires parts == ["8128", "S.", "DR MARTIN LUTHER KING JR", "Drive"]
    ensures Width(parts[..1]) == 5 && Width(parts[..2]) == 8 && Width(parts[..3]) == 33
  {
    assert parts[..1][..0] == [] && parts[..2][..1] == parts[..1] && parts[..3][..2] == parts[..2];
  }

  lemma Join4(a: string, b: string, c: string, d: string)
    ensures Join([a, b, c, d]) == a + " " + b + " " + c + " " + d
  {
    assert [a] + [b] == [a, b] && [a, b] + [c] == [a, b, c] && [a, b, c] + [d] == [a, b, c, d];
    JoinSnoc([a], b);
    JoinSnoc([a, b], c);
    JoinSnoc([a, b, c], d);
  }

  /** The document text of the sample: its words joined by single spaces. */
  lemma SampleText()
    ensures DocText(SampleTokens()) == "8128 S. DR MARTIN LUTHER KING JR Drive"
  {
    SampleRunTexts();
    DocTextIsJoinOfRuns(SampleTokens());
    SampleJoin();
  }

  lemma SampleJoin()
    ensures Join(["8128", "S.", "DR MARTIN LUTHER KING JR", "Drive"]) == "8128 S. DR MARTIN LUTHER KING JR Drive"
  {
    Join4("8128", "S.", "DR MARTIN LUTHER KING JR", "Drive");
    assert "8128" + " " + "S." == "8128 S.";
    assert "8128 S." + " " + "DR MARTIN LUTHER KING JR" == "8128 S. DR MARTIN LUTHER KING JR";
    assert "8128 S. DR MARTIN LUTHER KING JR" + " " + "Drive" == "8128 S. DR MARTIN LUTHER KING JR Drive";
  }

  /** A run whose text does not end in a comma yields an entity over its whole text. */
  lemma EntityWithoutComma(start: int, r: Run)
    requires |RunText(r)| > 0 && RunText(r)[|RunText(r)| - 1] != ','
    ensures RunEntity(start, r) == CharSpan(start, start + |RunText(r)|, r.tag)
  {
    var t := RunText(r);
    assert t[|t| - 1..] == [t[|t| - 1]];
  }

  /**
   * The first address of the sample corpus: the five StreetName tokens merge
   * into one entity, and each entity starts one space after the previous one.
   */
  lemma SampleEntities()
    ensures Entities(SampleTokens()) == [
      CharSpan(0, 4, "AddressNumber"), CharSpan(5, 7, "StreetNamePreDirectional"),
      CharSpan(8, 32, "StreetName"), CharSpan(33, 38, "StreetNamePostType")]
  {
    SampleRuns();
    EntitiesOfSampleRuns(Runs(SampleTokens()));
  }

  lemma EntitiesOfSampleRuns(rs: seq<Run>)
    requires rs == SampleRunList()
    ensures RunEntities(rs)[..EmittedRuns(rs)] == [
      CharSpan(0, 4, "AddressNumber"), CharSpan(5, 7, "StreetNamePreDirectional"),
      CharSpan(8, 32, "StreetName"), CharSpan(33, 38, "StreetNamePostType")]
  {
    RunTextsOfSample(rs);
    var parts := RunTexts(rs);
    SampleWidths(parts);
    assert Width(parts[..0]) == 0 by { assert parts[..0] == []; }
    assert RunText(rs[0]) == "8128" && RunText(rs[1]) == "S.";
    assert RunText(rs[2]) == "DR MARTIN LUTHER KING JR" && RunText(rs[3]) == "Drive";
    EntityWithoutComma(0, rs[0]);
    EntityWithoutComma(5, rs[1]);
    EntityWithoutComma(8, rs[2]);
    EntityWithoutComma(33, rs[3]);
    FourRunEntities(rs);
    assert EmittedRuns(rs) == 4;
  }

  lemma FourRunEntities(rs: seq<Run>)
    requires |rs| == 4
    ensures var parts := RunTexts(rs);
      RunEntities(rs) == [RunEntity(Width(parts[..0]), rs[0]), RunEntity(Width(parts[..1]), rs[1]),
        RunEntity(Width(parts[..2]), rs[2]), RunEntity(Width(parts[..3]), rs[3])]
  {
  }
}
