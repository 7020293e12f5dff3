# reverso-api: language checks and response normalisation in Dafny

This project models the core of `reverso-api`, an unofficial promise-based
client for the Reverso web service (context examples, translation, spell
check, synonyms). Two parts of the client carry its logic.

- **Language checks.** `src/langcheck.js` holds three counter loops. Each one
  lower-cases its arguments and counts the entries of a language table that
  occur in them as substrings. The exported validators
  `src/utils/checkLanguage.js` and `src/checkLanguage.js` dispatch on the
  method name and on whether a target language was given, then test list
  membership. The current validator also defers to the pair check of
  `src/utils/checkCompatibility.js`.
- **Normalisation.** The four scraper methods of the `Reverso` class in
  `src/reverso.js` turn what the service answered into records. They number
  examples, trim and filter translation lines, copy spell corrections, number
  synonyms, strip tags, capture the first `<em>` phrase, and derive the voice
  link.

The modules follow the source files:

| module | file | what it holds |
|---|---|---|
| `Js` | (shared) | JS values, errors, promise outcomes, `Array.prototype.find` |
| `Strings` | (shared) | `toLowerCase`, `includes`, `trim*`, `split`/`join` |
| `Markup` | `src/reverso.js` | the tag-stripping and `<em>` regular expressions |
| `LangCheck` | `src/langcheck.js` | the three counter loops as methods, with their specification functions |
| `Compatibility` | `src/utils/checkCompatibility.js` | the pair lookup |
| `CheckLanguage` | `src/utils/checkLanguage.js` | the current validator |
| `LegacyCheckLanguage` | `src/checkLanguage.js` | the older validator |
| `LanguageTables` | `src/reverso.js` | the code and voice tables |
| `Normalise` | `src/reverso.js` | the `push` loops as methods |
| `Reverso` | `src/reverso.js` | `getContext`, `getSpellCheck`, `getSynonyms`, `getTranslation` |

How JavaScript is represented:

- An argument is `Null`, `Str(s)` or `Other`. An omitted argument becomes
  `null` through the `= null` defaults, so it is `Null` too.
- A validator returns `Ok(true)` or `Err(e)`.
- `e` is one of four errors: an `Error` thrown with a message, a
  `reject({ error })` with a message, a TypeError from reading a property
  of `undefined`, or a TypeError from calling `undefined`.
- An `async` scraper method settles as `Resolves(record)`, `ResolvesUndefined`
  or `Rejects(e)`. `ResolvesUndefined` is the case where
  `.catch(console.error)` swallowed a failure.
- The language tables (`./langs/*`, `../languages/*`,
  `compatibility.json`) are not part of this model. They are parameters.
- The HTTP answer is a parameter. It is `None` when the request failed, and
  also when the answer lacks a field the callback reads, such as
  `data.corrections` or `languageDetection`. Both end in
  `.catch(console.error)`, so the call resolves to `undefined`.
- What cheerio extracted from the page is a parameter.

## Model

| member | source | states |
|---|---|---|
| Js.Find | src/utils/checkCompatibility.js:27-28 | `find` gives undefined exactly when no element matches; otherwise it gives an element at the first matching position |
| Js.FindFirst | src/utils/checkCompatibility.js:27-28 | `find` returns the element at the first position that satisfies the callback |
| Js.Includes | src/utils/checkLanguage.js:26 | `list.includes(v)` is true exactly when some element of the list is the string `v`; a non-string is never found |
| Strings.ToLower | src/langcheck.js:18-19 | lower-casing keeps the length and maps every character through the ASCII lower-case map |
| Strings.ToLowerIdempotent | src/langcheck.js:18-19 | lower-casing a lower-cased string changes nothing |
| Strings.ToLowerOfLower | src/langcheck.js:18-19 | a string with no upper-case ASCII letter is its own lower case |
| Strings.NotContainedForeignChar | src/langcheck.js:23 | a needle holding a character the haystack lacks is not included in it |
| Strings.ContainsAt | src/langcheck.js:23 | `includes` is true exactly when the needle occurs at some index of the haystack |
| Strings.OccursShift | src/langcheck.js:23 | when the needle is not a prefix, its occurrences are those in the tail, one position further on |
| Strings.Contains | src/langcheck.js:23 | the empty name is contained in every string, and the empty string contains nothing else; `ContainsAt` gives the exact characterisation |
| Strings.TrimStart | src/reverso.js:48-49 | `trimStart` never lengthens a string, and its result does not start with white space |
| Strings.TrimStartDropsSpace | src/reverso.js:48-49 | `trimStart` keeps a suffix and removes only white space |
| Strings.TrimEnd | src/reverso.js:54 | `trimEnd` never lengthens a string, its result does not end with white space, and it keeps the first character |
| Strings.TrimEndDropsSpace | src/reverso.js:54 | `trimEnd` keeps a prefix and removes only white space |
| Strings.Trim | src/reverso.js:54 | a trimmed string neither starts nor ends with white space |
| Strings.TrimFixed | src/reverso.js:54-56 | a string with no white space at either end is its own trim, so trimming is idempotent |
| Strings.IndexOf | src/reverso.js:41-43 | the separator search inside `split('\n')` finds the first line break |
| Strings.IndexOfAt | src/reverso.js:41-43 | the first position holding the separator is the one the search finds |
| Strings.Split | src/reverso.js:41-43 | `split('\n')` gives at least one piece, and no piece holds the separator |
| Strings.JoinSplit | src/reverso.js:41-43 | joining the pieces of a split with the separator gives back the string, so splitting loses nothing |
| Strings.SplitCount | src/reverso.js:41-43 | a split gives one piece more than there are separators |
| Markup.StripTags | src/reverso.js:242-243 | stripping never lengthens, adds no character, and leaves no `<` followed later by `>` |
| Markup.StripTagsFixed | src/reverso.js:242-243 | a string with no `<…>` span is unchanged by stripping |
| Markup.StripLeadingTag | src/reverso.js:242-243 | a tag at the start is deleted up to the first `>` after its `<`, and stripping goes on after it |
| Markup.StripTagsDropsFirstTag | src/reverso.js:242-243 | the text before the first `<…>` span is kept, the span is deleted, and the rest is stripped; with `StripTagsFixed` this fixes every result |
| Markup.StripTagsIdempotent | src/reverso.js:242-243 | stripping twice equals stripping once |
| Markup.CloseEm | src/reverso.js:244-245 | the lazy `(.*?)<\/em>` match stops at the first `</em>` and its body holds no line terminator |
| Markup.CloseEmComplete | src/reverso.js:244-245 | whenever a line-free run is followed by `</em>`, the lazy match succeeds |
| Markup.FirstEmphasis | src/reverso.js:244-245 | a captured phrase holds no line terminator and occurs in the example as `<em>phrase</em>` |
| Markup.EmMatchShift | src/reverso.js:244 | the pattern matches at position `p + 1` of a string exactly when it matches at `p` of its tail |
| Markup.LeftmostShift | src/reverso.js:244 | with no match at position 0, the leftmost match of a string is that of its tail, one position on |
| Markup.NoMatchShift | src/reverso.js:244 | with no match at position 0 nor in the tail, the pattern matches nowhere |
| Markup.FirstEmphasisLeftmost | src/reverso.js:244-245 | the phrase is absent exactly when the pattern matches nowhere; otherwise it is the group of the leftmost match, `[0]` of `matchAll` |
| Markup.FirstEmphasisComplete | src/reverso.js:244-245 | whenever a `<em>…</em>` span with a line-free body occurs, the pattern matches |
| LangCheck.MatchedStep | src/langcheck.js:22-26 | one loop iteration counts the current entry exactly when it occurs, and an entry is never counted twice |
| LangCheck.MatchedBound | src/langcheck.js:22-26 | after `i` iterations the counter is at most `i` |
| LangCheck.MatchedSameInput | src/langcheck.js:23 | testing the same string as `a` and `b` matches the entries that testing it once matches |
| LangCheck.ContextLangResult | src/langcheck.js:10-35 | `checkContextLang` never returns false, every failure is a throw, and a non-string argument throws the type message |
| LangCheck.SpellLangResult | src/langcheck.js:42-66 | `checkSpellLang` never returns false, every failure is a throw, and a non-string argument throws the type message |
| LangCheck.SynonymsLangResult | src/langcheck.js:73-97 | `checkSynonymsLang` never returns false, every failure is a throw, and a non-string argument throws the type message |
| LangCheck.CheckContextLang | src/langcheck.js:10-35 | the loop succeeds exactly when two context entries occur in the lower-cased `a` or `b` and neither is empty; otherwise it throws |
| LangCheck.CountSingle | src/langcheck.js:50-58 | the loop counter equals the number of table entries occurring in the lower-cased argument, or 0 for an empty argument |
| LangCheck.CheckSpellLang | src/langcheck.js:42-66 | the check succeeds exactly when one spell entry occurs in the lower-cased argument; otherwise it throws |
| LangCheck.CheckSynonymsLang | src/langcheck.js:73-97 | the check succeeds exactly when one CONTEXT entry occurs in the lower-cased argument; otherwise it throws |
| LangCheck.CountBound | src/langcheck.js:22-26 | the counter never exceeds the length of the table |
| LangCheck.EmptyRejected | src/langcheck.js:21 | an empty argument skips the loop and every check rejects it |
| LangCheck.ChecksIgnoreCase | src/langcheck.js:18-19 | each check gives an argument and its lower-cased form the same answer |
| LangCheck.SameLanguagePair | src/langcheck.js:21-29 | a pair naming one language twice passes only when that name alone holds two entries, and then the synonyms check on it fails |
| LangCheck.SynonymsIgnoresSpellTable | src/langcheck.js:84 | `checkSynonymsLang` does not depend on the spell table |
| Compatibility.CheckCompatibility | src/utils/checkCompatibility.js:15-53 | null method, then null source, then null target are rejected in that order; the type rejection happens exactly when both languages are non-strings; success is always true; the remaining outcomes are stated by the lemmas below |
| Compatibility.CompatibilityDecision | src/utils/checkCompatibility.js:25-47 | 'context' and 'translation' succeed exactly when the operation's first entry lists the target under the source's first entry |
| Compatibility.MissingSourceNeverResolves | src/utils/checkCompatibility.js:28 | a source with no entry in the first group of the method makes the promise reject with the `compatible_with` TypeError |
| Compatibility.MissingGroupReadsUndefined | src/utils/checkCompatibility.js:27-28 | an operation with no entry in the table makes the promise reject with the `language` TypeError |
| Compatibility.UnsupportedPairRejected | src/utils/checkCompatibility.js:30-44 | a source whose entry does not list the target is rejected with "Unsupported languages' combination." |
| Compatibility.UnknownMethodRejected | src/utils/checkCompatibility.js:48-50 | any other method is rejected with "Incorrect method's name." |
| CheckLanguage.Validate | src/utils/checkLanguage.js:15-84 | a null method is rejected first; success is true, and it happens exactly for a string source that is in the method's list, and for pairs exactly when both languages are listed and the compatibility check accepts them; the message of each rejection is stated by the lemmas below |
| CheckLanguage.SourceCheckedFirst | src/utils/checkLanguage.js:18-19 | a null or non-string source is rejected before dispatch, whatever the method and target |
| CheckLanguage.SingleLanguageMethods | src/utils/checkLanguage.js:21-46 | without a target, any method other than 'spell' and 'synonym' is rejected as unknown |
| CheckLanguage.SingleListMissRejected | src/utils/checkLanguage.js:26-39 | a 'spell' or 'synonym' source missing from its list is rejected with "Incorrect language specified." |
| CheckLanguage.SecondTypeCheckUnreachable | src/utils/checkLanguage.js:48-51 | the second type rejection is never produced |
| CheckLanguage.PairCheck | src/utils/checkLanguage.js:54-75 | the two-language branch succeeds with true exactly when both languages are in the list and the compatibility table pairs them; a language missing from the list is rejected with "Incorrect languages specified." |
| CheckLanguage.PairDecision | src/utils/checkLanguage.js:54-77 | a pair succeeds exactly when both languages are in the list and the compatibility table pairs them |
| CheckLanguage.CompatibilityErrorPropagates | src/utils/checkLanguage.js:58-60 | a rejection of the compatibility check reaches the caller unchanged |
| CheckLanguage.PairListMissRejected | src/utils/checkLanguage.js:57-74 | a pair with a language missing from the method's list is rejected with "Incorrect languages specified." before the compatibility table is read |
| CheckLanguage.UnknownMethodWithTarget | src/utils/checkLanguage.js:77-79 | with a target, any method other than 'context' and 'translation' is rejected with "Incorrect method's name." |
| LegacyCheckLanguage.Validate | src/checkLanguage.js:11-80 | success is true, and it happens exactly for a string source in the spell or its own synonym list, or for a pair whose two languages are both listed; the pair type rejection happens exactly when both languages are non-strings; the messages of the other rejections are stated by the lemmas below |
| LegacyCheckLanguage.MissingParamsFirst | src/checkLanguage.js:13-14 | a null method, then a null source, are rejected in that order |
| LegacyCheckLanguage.SingleSourceTypeCheckedFirst | src/checkLanguage.js:16-20 | without a target, a source that is not a string is rejected with the type message before the method is looked at |
| LegacyCheckLanguage.MethodMustMatchArity | src/checkLanguage.js:16-76 | 'spell' with a target and 'context' without one are unknown methods |
| LegacyCheckLanguage.SingleListMissRejected | src/checkLanguage.js:26-39 | a 'spell' or 'synonym' source missing from its list is rejected with "Incorrect language specified." |
| LegacyCheckLanguage.PairListMissRejected | src/checkLanguage.js:57-70 | a pair with a language missing from the method's list is rejected with "Incorrect languages specified." |
| LegacyCheckLanguage.UnknownMethodRejected | src/checkLanguage.js:43-75 | once the arguments pass their checks, a method outside the branch the target selects is rejected with "Incorrect method name." |
| LegacyCheckLanguage.CurrentStricterThanLegacy | src/checkLanguage.js:33-42 | over the shared spell, context and translation files, the only requests the current validator accepts and the older one rejects are 'synonym' requests for a name in the current synonyms list that the older synonym list lacks |
| LanguageTables.TablesTotal | src/reverso.js:81-198 | the spell table (lines 81-84) covers English and French, and the synonym (127-135), translation (180-188) and voice (190-198) tables cover exactly the seven names |
| LanguageTables.SpellCodesInjective | src/reverso.js:81-84 | no two spell-check names share a code |
| LanguageTables.SynonymCodesInjective | src/reverso.js:127-135 | no two synonym names share a code |
| LanguageTables.TranslationCodesInjective | src/reverso.js:180-188 | no two translation names share a code |
| LanguageTables.VoicesInjective | src/reverso.js:190-198 | no two target languages share a voice |
| LanguageTables.Lookup | src/reverso.js:86 | a lookup is undefined exactly when no key is the lower-cased name; a value it finds belongs to the table and, in an injective table, names that language and no other |
| LanguageTables.LookupIgnoresCase | src/reverso.js:137 | a lookup gives a name and its lower-cased form the same answer |
| LanguageTables.Rendered | src/reverso.js:86 | a found value is written into the URL unchanged; the text "undefined" appears exactly for an undefined lookup or a value that is itself "undefined" |
| LanguageTables.SpellLanguageParam | src/reverso.js:86 | the spell-check URL names "undefined" exactly when the lower-cased name has no code; otherwise a code taken from the spell-check table that names that language and no other |
| LanguageTables.SynonymLanguageParam | src/reverso.js:137 | the synonyms URL names "undefined" exactly when the lower-cased name has no code; otherwise a code taken from the synonyms table that names that language and no other |
| LanguageTables.SpellParamIdentifiesLanguage | src/reverso.js:81-86 | two names whose spell-check URLs name the same language differ at most in case |
| LanguageTables.SynonymParamIdentifiesLanguage | src/reverso.js:127-137 | two names whose synonyms URLs name the same language differ at most in case |
| LanguageTables.LookupsTotal | src/reverso.js:180-198 | each of the seven names, in any case, has a synonym code, a translation code and a voice |
| LanguageTables.SpellCheckPassesUnmappedName | src/reverso.js:79-86 | a name that contains exactly one of "english" and "french" without being it passes the spell check, yet the request asks for language "undefined" |
| LanguageTables.SynonymsCheckPassesUnmappedName | src/reverso.js:125-137 | with the seven names as the context table, a name that contains exactly one of them without being one passes the synonyms check, yet the request asks for language "undefined" |
| LanguageTables.BritishEnglishSpellGap | src/reverso.js:79-86 | "british english" passes the spell check, yet the spell-check URL names language "undefined" |
| LanguageTables.BritishEnglishSynonymsGap | src/reverso.js:125-137 | "british english" passes the synonyms check, yet the synonyms URL names language "undefined" |
| Normalise.ZipExamples | src/reverso.js:45-51 | the loop completes exactly when there are at least as many target segments as source segments, and then gives one example per source segment, numbered from 0, with both sides start-trimmed |
| Normalise.Kept | src/reverso.js:53-57 | every kept translation is non-empty and already trimmed, and there are no more of them than lines |
| Normalise.KeptMembership | src/reverso.js:53-57 | a string is kept exactly when it is the non-empty trim of some line |
| Normalise.KeptAppend | src/reverso.js:53-57 | keeping preserves the order of the lines |
| Normalise.CollectTranslations | src/reverso.js:53-57 | the `forEach` loop pushes exactly the kept lines, in order |
| Normalise.WithoutText | src/reverso.js:63 | the filter keeps exactly the elements that differ from the query |
| Normalise.WithoutTextAppend | src/reverso.js:63 | the filter preserves order |
| Normalise.ContextTranslations | src/reverso.js:53-63 | a returned translation is exactly a non-empty trimmed line that differs from the query, and it is already trimmed |
| Normalise.NumberCorrections | src/reverso.js:100-109 | one record per correction, with id `i`, the correction's type, description and correction text, and the shared query and corrected text |
| Normalise.NumberSynonyms | src/reverso.js:151-156 | one record per anchor, in document order, with ids 0 to n-1 |
| Normalise.BuildContextExamples | src/reverso.js:240-247 | the loop completes exactly when every source example has a target example and both hold an `<em>` phrase; then each record holds both stripped, tag-free examples and their first phrases |
| Reverso.CallLangcheck | src/reverso.js:7-12 | calling a name that `src/langcheck.js` does not export fails with "is not a function" |
| Reverso.GetContext | src/reverso.js:23-69 | a failing language check rejects the call before any request; otherwise the call resolves exactly when the page arrived and has enough target segments, with the original languages, the filtered translations and one example per source segment |
| Reverso.Segments | src/reverso.js:41-42 | the segments hold no line break and, joined with line breaks, give back the trimmed text |
| Reverso.ExampleCount | src/reverso.js:41 | the number of examples is one more than the number of line breaks in the trimmed source text |
| Reverso.GetSpellCheck | src/reverso.js:78-115 | a failing check rejects the call; a successful check with an answer resolves to one numbered record per correction; a successful check without one resolves to `undefined` |
| Reverso.GetSynonyms | src/reverso.js:124-166 | a failing check rejects the call; a successful check with an answer resolves to the query, the language and one numbered synonym per anchor; a successful check without one resolves to `undefined` |
| Reverso.VoiceFor | src/reverso.js:218-219 | the voice is a link exactly when the voice table has the lower-cased target and the first translation has at most 150 characters; the link names that voice and the encoded translation |
| Reverso.VoiceForSupportedTargets | src/reverso.js:190-198 | for the seven languages, in any case, the link depends only on the 150-character bound |
| Reverso.NormaliseTranslation | src/reverso.js:217-261 | the callback fails exactly when there is no first translation or the first group's examples cannot be built; the context is "no context examples" exactly when there are no results; otherwise there is one stripped example per source example and the first group's `rude` flag |
| Reverso.HasContext | src/reverso.js:223 | the answer has no context examples exactly when `contextResults` is absent or holds no group; otherwise a first group exists |
| Reverso.GetTranslation | src/reverso.js:177-265 | a failing language check rejects the call; otherwise it resolves exactly when the answer normalises, with the service's translations and the voice link |
| Reverso.GetTranslationAsWritten | src/reverso.js:177-178 | as written, every call rejects with "checkTranslationLang is not a function" |

## Left out

- Network I/O is not modelled: the axios requests, the request headers and `random-useragent`. What the service answered is a parameter.
- The cheerio selectors are not modelled. The texts they extract are parameters.
- URL building and `encodeURIComponent` are not modelled. The language segment of each URL is modelled (`SpellLanguageParam`, `SynonymLanguageParam`).
- The codes in the translation request body are not modelled, beyond the table's totality and injectivity.
- `Buffer.from(s).toString('base64')` (section 4 of RFC 4648) is the parameter `toBase64`, and `urls.voice` is the parameter `voiceUrl`.
- `src/utils/to-base64.js` and `src/utils/transform-response.js` are not part of this model.
- `src/constants.js`, `index.js`, `example/app.js` and `@types` are not part of this model.
- Promise scheduling and the `console.error` logging are not modelled. Only the settled outcome is.
- The language table files are not part of this model. They are parameters.
- `toLowerCase` is modelled on ASCII letters only. Full Unicode case mapping is not modelled.
- `.length` counts Unicode scalar values, not UTF-16 code units, for the 150-character voice bound.
- A JavaScript object lookup such as `voice[name]` also finds inherited keys like `constructor`. The tables are modelled as maps with their own keys only.
- The filter `e != text` is modelled with `text` as a string. Loose equality against a non-string query is not modelled.
- A TypeError is modelled by the property or callee it names. The engine's exact message text is not modelled.
- Reverso.GetTranslation: the behaviour of `checkTranslationLang` is not modelled, because `src/langcheck.js` does not define it. Its outcome is the parameter `validation`.
- Reverso.GetTranslation: only the translations, the voice and the presence of context are stated. The full record is stated by `NormaliseTranslation`.
- Reverso.GetContext: the URL path is not modelled. It lower-cases both languages.

## Findings

| source | as written | input that shows it | evidently intended | confidence | as-written member | corrected member |
|---|---|---|---|---|---|---|
| src/reverso.js:11 | `getTranslation` calls `checkTranslationLang`, destructured from `./langcheck`; `src/langcheck.js:99` does not export it, so it is undefined and the call at line 178 throws a TypeError | `getTranslation("hello", "english", "french")` | validate the language pair, then request and normalise the translation | high; not executed | Reverso.GetTranslationAsWritten | Reverso.GetTranslation |
