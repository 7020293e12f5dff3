/** The normalisation loops of src/reverso.js. Each one takes what cheerio or
    the JSON response yielded (sequences of strings or records) and pushes one
    record per item, numbered in document order. */
module Normalise {
  import opened Js
  import opened Strings
  import opened Markup

  /** `{ id, from, to }`: one usage example of `getContext`. */
  datatype Example = Example(id: nat, source: string, target: string)

  /** The loop of `getContext` over the source segments. It pairs segment `i`
      with target segment `i`. A missing target segment is undefined, and
      calling `trimStart` on it throws. */
  method ZipExamples(fromExample: seq<string>, toExample: seq<string>) returns (r: Option<seq<Example>>)
    ensures r.Some? <==> |fromExample| <= |toExample|
    ensures r.Some? ==> |r.value| == |fromExample|
    ensures r.Some? ==> forall i | 0 <= i < |fromExample| ::
      r.value[i] == Example(i, TrimStart(fromExample[i]), TrimStart(toExample[i]))
  {
    var examples: seq<Example> := [];
    for i := 0 to |fromExample|
      invariant i <= |toExample|
      invariant |examples| == i
      invariant forall k | 0 <= k < i :: examples[k] == Example(k, TrimStart(fromExample[k]), TrimStart(toExample[k]))
    {
      if i >= |toExample| {
        return None;
      }
      examples := examples + [Example(i, TrimStart(fromExample[i]), TrimStart(toExample[i]))];
    }
    return Some(examples);
  }

  /** The translation candidates the `forEach` of `getContext` keeps: each line
      trimmed, with the lines that are blank after trimming dropped, in order. */
  function Kept(lines: seq<string>): (r: seq<string>)
    ensures |r| <= |lines|
    ensures forall k | 0 <= k < |r| :: r[k] != [] && Trim(r[k]) == r[k]
  {
    if lines == [] then []
    else
      var last := Trim(lines[|lines| - 1]);
      TrimFixed(last);
      Kept(lines[..|lines| - 1]) + (if |last| <= 0 then [] else [last])
  }

  /** A string is kept exactly when it is the non-empty trim of some line. */
  lemma {:induction false} KeptMembership(lines: seq<string>, x: string)
    ensures x in Kept(lines) <==> x != [] && exists k | 0 <= k < |lines| :: Trim(lines[k]) == x
  {
    if lines != [] {
      var init := lines[..|lines| - 1];
      KeptMembership(init, x);
      assert forall k | 0 <= k < |init| :: init[k] == lines[k];
      if x != [] && exists k | 0 <= k < |lines| :: Trim(lines[k]) == x {
        var k :| 0 <= k < |lines| && Trim(lines[k]) == x;
        if k < |init| {
          assert Trim(init[k]) == x;
        }
      }
    }
  }

  /** Keeping commutes with concatenation: the order of the lines is kept. */
  lemma {:induction false} KeptAppend(a: seq<string>, b: seq<string>)
    ensures Kept(a + b) == Kept(a) + Kept(b)
  {
    if b != [] {
      var b' := b[..|b| - 1];
      KeptAppend(a, b');
      assert (a + b)[..|a + b| - 1] == a + b';
    } else {
      assert a + b == a;
    }
  }

  /** The `forEach` loop of `getContext` that pushes the trimmed, non-blank
      lines into `translation`. */
  method CollectTranslations(lines: seq<string>) returns (translation: seq<string>)
    ensures translation == Kept(lines)
  {
    translation := [];
    for i := 0 to |lines|
      invariant translation == Kept(lines[..i])
    {
      assert lines[..i + 1][..i] == lines[..i];
      var s := Trim(lines[i]);
      if |s| <= 0 {
        continue;
      }
      translation := translation + [Trim(lines[i])];
    }
    assert lines[..|lines|] == lines;
  }

  /** `xs.filter((e) => e != text)`. */
  function WithoutText(xs: seq<string>, text: string): (r: seq<string>)
    ensures |r| <= |xs|
    ensures forall x :: x in r <==> x in xs && x != text
  {
    if xs == [] then []
    else (if xs[0] != text then [xs[0]] else []) + WithoutText(xs[1..], text)
  }

  /** Filtering commutes with concatenation: the order is kept. */
  lemma {:induction false} WithoutTextAppend(a: seq<string>, b: seq<string>, text: string)
    ensures WithoutText(a + b, text) == WithoutText(a, text) + WithoutText(b, text)
  {
    if a != [] {
      WithoutTextAppend(a[1..], b, text);
      assert (a + b)[1..] == a[1..] + b;
    } else {
      assert a + b == b;
    }
  }

  /** Every translation `getContext` returns is trimmed, not empty, different
      from the query, and the trim of one of the lines; conversely every such
      trimmed line is returned. */
  lemma ContextTranslations(lines: seq<string>, text: string, x: string)
    ensures x in WithoutText(Kept(lines), text)
        <==> x != [] && x != text && exists k | 0 <= k < |lines| :: Trim(lines[k]) == x
    ensures x in WithoutText(Kept(lines), text) ==> Trim(x) == x
  {
    KeptMembership(lines, x);
  }

  /** One element of the `corrections` array of the spell-check response. */
  datatype Correction = Correction(kind: string, longDescription: string, correctionText: string)

  /** `{ id, text, type, explanation, corrected, full_corrected }`. */
  datatype SpellCorrection = SpellCorrection(id: nat, text: string, kind: string, explanation: string, corrected: string, fullCorrected: string)

  /** The loop of `getSpellCheck`. It builds one record per correction. Every
      record repeats the query `text` and the corrected full text `fullText`
      (`data.text`). */
  method NumberCorrections(text: string, corrections: seq<Correction>, fullText: string) returns (result: seq<SpellCorrection>)
    ensures |result| == |corrections|
    ensures forall i | 0 <= i < |result| :: result[i].id == i && result[i].text == text && result[i].fullCorrected == fullText
    ensures forall i | 0 <= i < |result| ::
      && result[i].kind == corrections[i].kind
      && result[i].explanation == corrections[i].longDescription
      && result[i].corrected == corrections[i].correctionText
  {
    result := [];
    for i := 0 to |corrections|
      invariant |result| == i
      invariant forall k | 0 <= k < i ::
        result[k] == SpellCorrection(k, text, corrections[k].kind, corrections[k].longDescription, corrections[k].correctionText, fullText)
    {
      var c := corrections[i];
      result := result + [SpellCorrection(i, text, c.kind, c.longDescription, c.correctionText, fullText)];
    }
  }

  /** `{ id, synonym }`. */
  datatype Synonym = Synonym(id: nat, synonym: string)

  /** The `each` callback of `getSynonyms`, run over the texts of the matched
      anchors in document order. */
  method NumberSynonyms(anchors: seq<string>) returns (synonyms: seq<Synonym>)
    ensures |synonyms| == |anchors|
    ensures forall i | 0 <= i < |synonyms| :: synonyms[i].id == i && synonyms[i].synonym == anchors[i]
  {
    synonyms := [];
    for i := 0 to |anchors|
      invariant |synonyms| == i
      invariant forall k | 0 <= k < i :: synonyms[k] == Synonym(k, anchors[k])
    {
      synonyms := synonyms + [Synonym(i, anchors[i])];
    }
  }

  /** `{ from, to, phrase_from, phrase_to }`: one context example of
      `getTranslation`. */
  datatype ContextExample = ContextExample(source: string, target: string, phraseSource: string, phraseTarget: string)

  /** The loop can build every record: each source example has a target
      example, and both hold an `<em>` phrase. */
  predicate ExamplesComplete(sourceExamples: seq<string>, targetExamples: seq<string>)
  {
    && |sourceExamples| <= |targetExamples|
    && forall i | 0 <= i < |sourceExamples| ::
      FirstEmphasis(sourceExamples[i]).Some? && FirstEmphasis(targetExamples[i]).Some?
  }

  /** The loop of `getTranslation` over the first group of context results.
      It strips the tags of both examples and captures their first `<em>`
      phrases. A missing target example, or an example with no `<em>` phrase,
      makes the loop throw. */
  method BuildContextExamples(sourceExamples: seq<string>, targetExamples: seq<string>) returns (r: Option<seq<ContextExample>>)
    ensures r.Some? <==> ExamplesComplete(sourceExamples, targetExamples)
    ensures r.Some? ==> |r.value| == |sourceExamples|
    ensures r.Some? ==> forall i | 0 <= i < |sourceExamples| ::
      && r.value[i].source == StripTags(sourceExamples[i]) && TagFree(r.value[i].source)
      && r.value[i].target == StripTags(targetExamples[i]) && TagFree(r.value[i].target)
      && Some(r.value[i].phraseSource) == FirstEmphasis(sourceExamples[i])
      && Some(r.value[i].phraseTarget) == FirstEmphasis(targetExamples[i])
  {
    var examples: seq<ContextExample> := [];
    for i := 0 to |sourceExamples|
      invariant i <= |targetExamples|
      invariant |examples| == i
      invariant forall k | 0 <= k < i ::
        && FirstEmphasis(sourceExamples[k]).Some? && FirstEmphasis(targetExamples[k]).Some?
        && examples[k] == ContextExample(StripTags(sourceExamples[k]), StripTags(targetExamples[k]),
                                         FirstEmphasis(sourceExamples[k]).value, FirstEmphasis(targetExamples[k]).value)
    {
      if i >= |targetExamples| {
        return None;
      }
      var phraseSource := FirstEmphasis(sourceExamples[i]);
      var phraseTarget := FirstEmphasis(targetExamples[i]);
      if phraseSource.None? || phraseTarget.None? {
        assert !(FirstEmphasis(sourceExamples[i]).Some? && FirstEmphasis(targetExamples[i]).Some?);
        return None;
      }
      examples := examples + [ContextExample(StripTags(sourceExamples[i]), StripTags(targetExamples[i]),
                                             phraseSource.value, phraseTarget.value)];
    }
    return Some(examples);
  }
}
