/** The fixed tables of src/reverso.js that map a lower-cased language name to
    the service's code for it or, for translations, to a voice. */
module LanguageTables {
  import opened Js
  import opened Strings
  import LangCheck

  /** The seven languages the error messages of src/langcheck.js list, lower-cased. */
  const SupportedNames: seq<string> := ["english", "russian", "german", "spanish", "french", "italian", "polish"]

  /** `resLang` of `getSpellCheck`. */
  const SpellCodes: map<string, string> := map["english" := "eng", "french" := "fra"]

  /** `resLang` of `getSynonyms`. */
  const SynonymCodes: map<string, string> := map[
    "english" := "en", "french" := "fr", "german" := "de", "russian" := "ru",
    "italian" := "it", "polish" := "pl", "spanish" := "es"]

  /** `language` of `getTranslation`. */
  const TranslationCodes: map<string, string> := map[
    "english" := "eng", "french" := "fra", "german" := "ger", "russian" := "rus",
    "italian" := "ita", "polish" := "pol", "spanish" := "spa"]

  /** `voice` of `getTranslation`. */
  const Voices: map<string, string> := map[
    "english" := "Heather22k", "french" := "Alice22k", "german" := "Claudia22k", "russian" := "Alyona22k",
    "italian" := "Chiara22k", "polish" := "Ania22k", "spanish" := "Ines22k"]

  /** No two names share a value. */
  predicate Injective(table: map<string, string>)
  {
    forall x, y | x in table && y in table && x != y :: table[x] != table[y]
  }

  /** The synonym, translation and voice tables cover exactly the seven names;
      the spell table covers two of them. */
  lemma TablesTotal()
    ensures SynonymCodes.Keys == TranslationCodes.Keys == Voices.Keys == set n | n in SupportedNames
    ensures SpellCodes.Keys == {"english", "french"} && SpellCodes.Keys <= SynonymCodes.Keys
  {
  }

  /** No two spell names share a code. */
  lemma SpellCodesInjective()
    ensures Injective(SpellCodes)
  {
  }

  /** No two synonym names share a code. */
  lemma SynonymCodesInjective()
    ensures Injective(SynonymCodes)
  {
    forall x, y | x in SynonymCodes && y in SynonymCodes && x != y
      ensures SynonymCodes[x] != SynonymCodes[y]
    {
      assert x in SupportedNames;
    }
  }

  /** No two translation names share a code. */
  lemma TranslationCodesInjective()
    ensures Injective(TranslationCodes)
  {
    forall x, y | x in TranslationCodes && y in TranslationCodes && x != y
      ensures TranslationCodes[x] != TranslationCodes[y]
    {
      assert x in SupportedNames;
    }
  }

  /** No two target languages share a voice. */
  lemma VoicesInjective()
    ensures Injective(Voices)
  {
    forall x, y | x in Voices && y in Voices && x != y
      ensures Voices[x] != Voices[y]
    {
      assert x in SupportedNames;
    }
  }

  /** `table[name.toLowerCase()]`: the value, or undefined. Undefined means
      the lower-cased name is no key; a value found in an injective table
      names that language and no other. */
  function Lookup(table: map<string, string>, name: string): (r: Option<string>)
    ensures r.None? <==> forall k | k in table :: k != ToLower(name)
    ensures r.Some? ==> r.value in table.Values
    ensures r.Some? && Injective(table) ==> forall k | k in table && table[k] == r.value :: k == ToLower(name)
  {
    if ToLower(name) in table then Some(table[ToLower(name)]) else None
  }

  /** The lookup ignores case. */
  lemma LookupIgnoresCase(table: map<string, string>, name: string)
    ensures Lookup(table, name) == Lookup(table, ToLower(name))
  {
    ToLowerIdempotent(name);
  }

  /** How `${value}` renders a lookup inside a URL: undefined becomes the text
      "undefined". */
  function Rendered(v: Option<string>): (r: string)
    ensures v.Some? ==> r == v.value
    ensures r == "undefined" <==> v == None || v == Some("undefined")
  {
    match v
    case Some(s) => s
    case None => "undefined"
  }

  /** The `language` query parameter of the spell-check URL: the text
      "undefined" exactly when the lower-cased name has no code; otherwise a
      code that names that language and no other. */
  function SpellLanguageParam(lang: string): (p: string)
    ensures p == "undefined" <==> ToLower(lang) !in SpellCodes
    ensures p != "undefined" ==> p in SpellCodes.Values
    ensures p != "undefined" ==> forall k | k in SpellCodes && SpellCodes[k] == p :: k == ToLower(lang)
  {
    SpellCodesInjective();
    Rendered(Lookup(SpellCodes, lang))
  }

  /** The path segment of the synonyms URL that names the language: the text
      "undefined" exactly when the lower-cased name has no code; otherwise a
      code that names that language and no other. */
  function SynonymLanguageParam(lang: string): (p: string)
    ensures p == "undefined" <==> ToLower(lang) !in SynonymCodes
    ensures p != "undefined" ==> p in SynonymCodes.Values
    ensures p != "undefined" ==> forall k | k in SynonymCodes && SynonymCodes[k] == p :: k == ToLower(lang)
  {
    SynonymCodesInjective();
    Rendered(Lookup(SynonymCodes, lang))
  }

  /** Two names whose spell-check URLs name the same language differ at most
      in case. */
  lemma SpellParamIdentifiesLanguage(a: string, b: string)
    requires SpellLanguageParam(a) == SpellLanguageParam(b) != "undefined"
    ensures ToLower(a) == ToLower(b)
  {
    assert ToLower(b) in SpellCodes && SpellCodes[ToLower(b)] == SpellLanguageParam(a);
  }

  /** Two names whose synonyms URLs name the same language differ at most in
      case. */
  lemma SynonymParamIdentifiesLanguage(a: string, b: string)
    requires SynonymLanguageParam(a) == SynonymLanguageParam(b) != "undefined"
    ensures ToLower(a) == ToLower(b)
  {
    assert ToLower(b) in SynonymCodes && SynonymCodes[ToLower(b)] == SynonymLanguageParam(a);
  }

  /** Each of the seven names, in any case, has a synonym code, a translation
      code and a voice: the lookups are total over the supported names. */
  lemma LookupsTotal(lang: string)
    requires ToLower(lang) in SupportedNames
    ensures Lookup(SynonymCodes, lang).Some? && Lookup(TranslationCodes, lang).Some? && Lookup(Voices, lang).Some?
  {
    TablesTotal();
  }

  /** The substring check and the exact lookup disagree. With the spell table
      holding English and French, every name that contains exactly one of the
      two without being it (such as "british english") passes
      `checkSpellLang`, yet has no code, so the request asks for the language
      "undefined". */
  lemma {:induction false} SpellCheckPassesUnmappedName(lang: string)
    requires Contains(ToLower(lang), "english") != Contains(ToLower(lang), "french")
    requires ToLower(lang) != "english" && ToLower(lang) != "french"
    ensures LangCheck.SpellLangResult(Str(lang), LangCheck.LangTables(SupportedNames, ["english", "french"])) == Ok(true)
    ensures SpellLanguageParam(lang) == "undefined"
  {
    var lowered := ToLower(lang);
    var table: seq<string> := ["english", "french"];
    assert lowered !in SpellCodes;
    var hit := if Contains(lowered, "english") then 0 else 1;
    assert LangCheck.Matched(table, [lowered]) == {hit} by {
      assert LangCheck.OccursIn(table[hit], [lowered]) by {
        assert Contains([lowered][0], table[hit]);
      }
      assert !LangCheck.OccursIn(table[1 - hit], [lowered]);
    }
  }

  /** The same gap in `checkSynonymsLang`: with the seven names as its
      context table, a name that contains exactly one of them without being
      it passes the check, yet has no code, so the synonyms URL names the
      language "undefined". */
  lemma {:induction false} SynonymsCheckPassesUnmappedName(lang: string, i: nat)
    requires i < |SupportedNames| && Contains(ToLower(lang), SupportedNames[i])
    requires forall j | 0 <= j < |SupportedNames| && j != i :: !Contains(ToLower(lang), SupportedNames[j])
    requires ToLower(lang) !in SupportedNames
    ensures LangCheck.SynonymsLangResult(Str(lang), LangCheck.LangTables(SupportedNames, ["english", "french"])) == Ok(true)
    ensures SynonymLanguageParam(lang) == "undefined"
  {
    var lowered := ToLower(lang);
    assert lowered != [];
    assert LangCheck.Matched(SupportedNames, [lowered]) == {i} by {
      assert LangCheck.OccursIn(SupportedNames[i], [lowered]) by {
        assert Contains([lowered][0], SupportedNames[i]);
      }
      forall j | 0 <= j < |SupportedNames| && j != i
        ensures !LangCheck.OccursIn(SupportedNames[j], [lowered])
      {
        assert [lowered][0] == lowered;
      }
    }
    TablesTotal();
  }

  // The lemmas on "british english" take the string as a parameter fixed by
  // `requires`: given as a literal argument, it makes the solver unfold
  // `Contains` and `ToLower` on it eagerly, and the proof runs out of resources.

  /** "british english" contains none of the other six names: each has a
      letter it lacks. */
  lemma BritishEnglishLacks(s: string, j: nat)
    requires s == "british english" && 1 <= j < |SupportedNames|
    ensures !Contains(s, SupportedNames[j])
  {
    if j == 1 {
      NotContainedForeignChar(s, "russian", 1);   // no 'u'
    } else if j == 2 {
      NotContainedForeignChar(s, "german", 3);    // no 'm'
    } else if j == 3 {
      NotContainedForeignChar(s, "spanish", 1);   // no 'p'
    } else if j == 4 {
      NotContainedForeignChar(s, "french", 0);    // no 'f'
    } else if j == 5 {
      NotContainedForeignChar(s, "italian", 2);   // no 'a'
    } else {
      NotContainedForeignChar(s, "polish", 1);    // no 'o'
    }
  }

  /** "british english" is lower case and contains "english". */
  lemma BritishEnglishLowerAndEnglish(s: string)
    requires s == "british english"
    ensures ToLower(s) == s && Contains(s, "english")
  {
    ToLowerOfLower(s);
    assert OccursAt(s, "english", 8);
    ContainsAt(s, "english");
  }

  /** "british english" passes `checkSpellLang`, yet the spell-check URL names
      the language "undefined". */
  lemma BritishEnglishSpellGap(s: string)
    requires s == "british english"
    ensures LangCheck.SpellLangResult(Str(s), LangCheck.LangTables(SupportedNames, ["english", "french"])) == Ok(true)
    ensures SpellLanguageParam(s) == "undefined"
  {
    BritishEnglishLowerAndEnglish(s);
    BritishEnglishLacks(s, 4);
    SpellCheckPassesUnmappedName(s);
  }

  /** "british english" passes `checkSynonymsLang`, yet the synonyms URL names
      the language "undefined". */
  lemma BritishEnglishSynonymsGap(s: string)
    requires s == "british english"
    ensures LangCheck.SynonymsLangResult(Str(s), LangCheck.LangTables(SupportedNames, ["english", "french"])) == Ok(true)
    ensures SynonymLanguageParam(s) == "undefined"
  {
    BritishEnglishLowerAndEnglish(s);
    forall j | 1 <= j < |SupportedNames|
      ensures !Contains(s, SupportedNames[j])
    {
      BritishEnglishLacks(s, j);
    }
    SynonymsCheckPassesUnmappedName(s, 0);
  }
}
