/** The scraping methods of the `Reverso` class in src/reverso.js, from the
    language check to the normalised record. The HTTP request is not
    modelled: what the service answered is a parameter, `None` when the request
    failed. The HTML is not parsed either: what cheerio extracted is a
    parameter. */
module Reverso {
  import opened Js
  import opened Strings
  import opened Markup
  import opened Normalise
  import LangCheck
  import LanguageTables

  /** The names src/reverso.js destructures from the exports of src/langcheck.js. */
  const LangcheckExports: set<string> := {"checkContextLang", "checkSpellLang", "checkSynonymsLang"}

  /** Calling `name(a, b)`, where `name` was destructured from
      `require('./langcheck')`: a name that is not exported is undefined, and
      calling it throws a TypeError. */
  function CallLangcheck(name: string, a: JsValue, b: JsValue, tables: LangCheck.LangTables): (r: Result<bool>)
    ensures name !in LangcheckExports ==> r == Err(NotAFunction(name))
    ensures name == "checkContextLang" ==> r == LangCheck.ContextLangResult(a, b, tables)
  {
    if name == "checkContextLang" then LangCheck.ContextLangResult(a, b, tables)
    else if name == "checkSpellLang" then LangCheck.SpellLangResult(a, tables)
    else if name == "checkSynonymsLang" then LangCheck.SynonymsLangResult(a, tables)
    else Err(NotAFunction(name))
  }

  // ---------------------------------------------------------------- getContext

  /** What cheerio extracts from the context page: the `.text()` of the source
      example spans, of the target example spans, and of
      `#translations-content`. */
  datatype ContextPage = ContextPage(sourceText: string, targetText: string, translationsText: string)

  /** `{ text, from, to, translation, examples }`. */
  datatype ContextResponse = ContextResponse(text: string, from: string, to: string, translation: seq<string>, examples: seq<Example>)

  /** The source segments: `.text().trim().split('\n')`. */
  function Segments(text: string): (r: seq<string>)
    ensures Join(r, '\n') == Trim(text)
    ensures forall k | 0 <= k < |r| :: '\n' !in r[k]
  {
    JoinSplit(Trim(text), '\n');
    Split(Trim(text), '\n')
  }

  /** `getContext(text, from, to)`. */
  method GetContext(text: string, from: JsValue, to: JsValue, tables: LangCheck.LangTables, page: Option<ContextPage>)
    returns (r: Call<ContextResponse>)
    ensures LangCheck.ContextLangResult(from, to, tables).Err? ==> r == Rejects(LangCheck.ContextLangResult(from, to, tables).error)
    ensures LangCheck.ContextLangResult(from, to, tables).Ok? ==> !r.Rejects?
    ensures r.Resolves? <==>
      && LangCheck.ContextLangResult(from, to, tables).Ok? && page.Some?
      && |Segments(page.value.sourceText)| <= |Segments(page.value.targetText)|
    ensures r.Resolves? ==>
      && from.Str? && to.Str?
      && r.value == ContextResponse(text, from.s, to.s, r.value.translation, r.value.examples)
      && r.value.translation == WithoutText(Kept(Split(page.value.translationsText, '\n')), text)
      && |r.value.examples| == |Segments(page.value.sourceText)|
      && forall i | 0 <= i < |r.value.examples| ::
        r.value.examples[i] == Example(i, TrimStart(Segments(page.value.sourceText)[i]), TrimStart(Segments(page.value.targetText)[i]))
  {
    var check := LangCheck.CheckContextLang(from, to, tables);
    if check.Err? {
      return Rejects(check.error);
    }
    if page.None? {
      return ResolvesUndefined;
    }
    var fromExample := Segments(page.value.sourceText);
    var toExample := Segments(page.value.targetText);
    var toTranslation := Split(page.value.translationsText, '\n');
    var examples := ZipExamples(fromExample, toExample);
    if examples.None? {
      return ResolvesUndefined;
    }
    var translation := CollectTranslations(toTranslation);
    r := Resolves(ContextResponse(text, from.s, to.s, WithoutText(translation, text), examples.value));
  }

  /** There is one example per line of the trimmed source text: one more than
      it has line breaks. */
  lemma ExampleCount(sourceText: string)
    ensures |Segments(sourceText)| == multiset(Trim(sourceText))['\n'] + 1
  {
    SplitCount(Trim(sourceText), '\n');
  }

  // ------------------------------------------------------------- getSpellCheck

  /** The JSON body of the spell-check answer: `text` and `corrections`. */
  datatype SpellData = SpellData(text: string, corrections: seq<Correction>)

  /** `getSpellCheck(text, lang)`. */
  method GetSpellCheck(text: string, lang: JsValue, tables: LangCheck.LangTables, data: Option<SpellData>)
    returns (r: Call<seq<SpellCorrection>>)
    ensures LangCheck.SpellLangResult(lang, tables).Err? ==> r == Rejects(LangCheck.SpellLangResult(lang, tables).error)
    ensures r.Resolves? <==> LangCheck.SpellLangResult(lang, tables).Ok? && data.Some?
    ensures LangCheck.SpellLangResult(lang, tables).Ok? && data.None? ==> r == ResolvesUndefined
    ensures r.Resolves? ==> |r.value| == |data.value.corrections|
    ensures r.Resolves? ==> forall i | 0 <= i < |r.value| ::
      && r.value[i].id == i && r.value[i].text == text && r.value[i].fullCorrected == data.value.text
      && r.value[i].kind == data.value.corrections[i].kind
      && r.value[i].explanation == data.value.corrections[i].longDescription
      && r.value[i].corrected == data.value.corrections[i].correctionText
  {
    var check := LangCheck.CheckSpellLang(lang, tables);
    if check.Err? {
      return Rejects(check.error);
    }
    if data.None? {
      return ResolvesUndefined;
    }
    var result := NumberCorrections(text, data.value.corrections, data.value.text);
    r := Resolves(result);
  }

  // --------------------------------------------------------------- getSynonyms

  /** `{ text, from, synonyms }`. */
  datatype SynonymsResponse = SynonymsResponse(text: string, from: string, synonyms: seq<Synonym>)

  /** `getSynonyms(text, lang)`; `anchors` are the texts of the
      `a[class="synonym  relevant"]` elements in document order. */
  method GetSynonyms(text: string, lang: JsValue, tables: LangCheck.LangTables, anchors: Option<seq<string>>)
    returns (r: Call<SynonymsResponse>)
    ensures LangCheck.SynonymsLangResult(lang, tables).Err? ==> r == Rejects(LangCheck.SynonymsLangResult(lang, tables).error)
    ensures r.Resolves? <==> LangCheck.SynonymsLangResult(lang, tables).Ok? && anchors.Some?
    ensures LangCheck.SynonymsLangResult(lang, tables).Ok? && anchors.None? ==> r == ResolvesUndefined
    ensures r.Resolves? ==> lang.Str? && r.value.text == text && r.value.from == lang.s
    ensures r.Resolves? ==> |r.value.synonyms| == |anchors.value|
    ensures r.Resolves? ==> forall i | 0 <= i < |r.value.synonyms| ::
      r.value.synonyms[i].id == i && r.value.synonyms[i].synonym == anchors.value[i]
  {
    var check := LangCheck.CheckSynonymsLang(lang, tables);
    if check.Err? {
      return Rejects(check.error);
    }
    if anchors.None? {
      return ResolvesUndefined;
    }
    var synonyms := NumberSynonyms(anchors.value);
    r := Resolves(SynonymsResponse(text, lang.s, synonyms));
  }

  // ------------------------------------------------------------ getTranslation

  /** The `voice` field: a pronunciation link, or `false`. */
  datatype Voice = NoVoice | VoiceLink(url: string)

  /** The voice condition and link of `getTranslation`: a link exactly when the
      voice table has the lower-cased target language and the first
      translation is at most 150 characters long. `toBase64` stands for
      `Buffer.from(s).toString('base64')` and `voiceUrl` for `urls.voice`. */
  function VoiceFor(to: string, first: string, voiceUrl: string, toBase64: string -> string): (v: Voice)
    ensures v.VoiceLink? <==> ToLower(to) in LanguageTables.Voices && |first| <= 150
    ensures v.VoiceLink? ==>
      v.url == voiceUrl + "voiceName=" + LanguageTables.Voices[ToLower(to)] + "?inputText=" + toBase64(first)
  {
    var voice := LanguageTables.Lookup(LanguageTables.Voices, to);
    if voice.Some? && |first| <= 150 then
      VoiceLink(voiceUrl + "voiceName=" + voice.value + "?inputText=" + toBase64(first))
    else NoVoice
  }

  /** For each of the seven languages, whatever its case, the link is there
      exactly when the first translation fits in 150 characters. */
  lemma VoiceForSupportedTargets(to: string, first: string, voiceUrl: string, toBase64: string -> string)
    requires ToLower(to) in LanguageTables.SupportedNames
    ensures VoiceFor(to, first, voiceUrl, toBase64).VoiceLink? <==> |first| <= 150
  {
    LanguageTables.TablesTotal();
  }

  /** One group of `contextResults.results`. */
  datatype ContextGroup = ContextGroup(sourceExamples: seq<string>, targetExamples: seq<string>, rude: bool)

  /** The JSON body of the translation answer. `contextResults` is `None` when
      it is null; otherwise it holds `contextResults.results`. */
  datatype TranslationData = TranslationData(
    from: string, to: string, translation: seq<string>,
    contextResults: Option<seq<ContextGroup>>, detectedLanguage: string)

  /** The `context` field: `{ examples: 'no context examples', rude: 'not defined' }`
      when there are no context results, otherwise the examples of the first
      group and its `rude` flag. */
  datatype TranslationContext = NoContextExamples | ContextExamples(examples: seq<ContextExample>, rude: bool)

  /** `{ text, from, to, translation, context, detected_language, voice }`. */
  datatype TranslationResponse = TranslationResponse(
    text: string, from: string, to: string, translation: seq<string>,
    context: TranslationContext, detectedLanguage: string, voice: Voice)

  /** The answer has context results to turn into examples: the negation of
      `contextResults == null || contextResults.results.length <= 0`. */
  function HasContext(data: TranslationData): (b: bool)
    ensures b ==> data.contextResults.Some? && |data.contextResults.value| >= 1
    ensures !b <==> data.contextResults == None || data.contextResults == Some([])
  {
    !(data.contextResults.None? || |data.contextResults.value| <= 0)
  }

  /** The `.then` callback of `getTranslation`. It fails when there is no first
      translation (`Buffer.from(undefined)` throws). It also fails when the
      examples of the first context group cannot all be built. */
  method NormaliseTranslation(text: string, to: string, data: TranslationData, voiceUrl: string, toBase64: string -> string)
    returns (r: Option<TranslationResponse>)
    ensures r.Some? <==>
      && data.translation != []
      && (HasContext(data) ==>
            ExamplesComplete(data.contextResults.value[0].sourceExamples, data.contextResults.value[0].targetExamples))
    ensures r.Some? ==>
      && r.value.text == text && r.value.from == data.from && r.value.to == data.to
      && r.value.translation == data.translation && r.value.detectedLanguage == data.detectedLanguage
      && r.value.voice == VoiceFor(to, data.translation[0], voiceUrl, toBase64)
    ensures r.Some? ==> (r.value.context.NoContextExamples? <==> !HasContext(data))
    ensures r.Some? && HasContext(data) ==>
      && r.value.context.rude == data.contextResults.value[0].rude
      && |r.value.context.examples| == |data.contextResults.value[0].sourceExamples|
      && forall i | 0 <= i < |r.value.context.examples| ::
        && r.value.context.examples[i].source == StripTags(data.contextResults.value[0].sourceExamples[i])
        && r.value.context.examples[i].target == StripTags(data.contextResults.value[0].targetExamples[i])
        && Some(r.value.context.examples[i].phraseSource) == FirstEmphasis(data.contextResults.value[0].sourceExamples[i])
        && Some(r.value.context.examples[i].phraseTarget) == FirstEmphasis(data.contextResults.value[0].targetExamples[i])
  {
    if data.translation == [] {
      return None;
    }
    var voice := VoiceFor(to, data.translation[0], voiceUrl, toBase64);
    if !HasContext(data) {
      return Some(TranslationResponse(text, data.from, data.to, data.translation, NoContextExamples, data.detectedLanguage, voice));
    }
    var group := data.contextResults.value[0];
    var contextExamples := BuildContextExamples(group.sourceExamples, group.targetExamples);
    if contextExamples.None? {
      return None;
    }
    r := Some(TranslationResponse(text, data.from, data.to, data.translation,
                                  ContextExamples(contextExamples.value, group.rude), data.detectedLanguage, voice));
  }

  /** `getTranslation(text, from, to)` with the language check it evidently
      intends. `validation` is that check's outcome; its rules are not part of
      this model. */
  method GetTranslation(text: string, from: string, to: string, validation: Result<bool>,
                        data: Option<TranslationData>, voiceUrl: string, toBase64: string -> string)
    returns (r: Call<TranslationResponse>)
    ensures validation.Err? ==> r == Rejects(validation.error)
    ensures validation.Ok? ==> !r.Rejects?
    ensures r.Resolves? <==>
      && validation.Ok? && data.Some? && data.value.translation != []
      && (HasContext(data.value) ==>
            ExamplesComplete(data.value.contextResults.value[0].sourceExamples, data.value.contextResults.value[0].targetExamples))
    ensures r.Resolves? ==>
      && r.value.translation == data.value.translation
      && r.value.voice == VoiceFor(to, data.value.translation[0], voiceUrl, toBase64)
      && (r.value.context.NoContextExamples? <==> !HasContext(data.value))
  {
    if validation.Err? {
      return Rejects(validation.error);
    }
    if data.None? {
      return ResolvesUndefined;
    }
    var response := NormaliseTranslation(text, to, data.value, voiceUrl, toBase64);
    if response.None? {
      return ResolvesUndefined;
    }
    r := Resolves(response.value);
  }

  /** `getTranslation(text, from, to)` as written: it calls
      `checkTranslationLang`, which src/langcheck.js does not export. The call
      throws, so every call rejects before any request is made. */
  method GetTranslationAsWritten(text: string, from: string, to: string, tables: LangCheck.LangTables,
                                 data: Option<TranslationData>, voiceUrl: string, toBase64: string -> string)
    returns (r: Call<TranslationResponse>)
    ensures r == Rejects(NotAFunction("checkTranslationLang"))
  {
    var validation := CallLangcheck("checkTranslationLang", Str(from), Str(to), tables);
    r := GetTranslation(text, from, to, validation, data, voiceUrl, toBase64);
  }
}
