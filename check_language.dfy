/** The exported validator of src/utils/checkLanguage.js: it checks the
    arguments, dispatches on the method and on whether a target language is
    given, tests list membership and, for pairs, defers to the compatibility
    check. The language lists (the files under ../languages) are parameters. */
module CheckLanguage {
  import opened Js
  import Compatibility

  /** The lists of ../languages/spell, synonyms, context and translation. */
  datatype LanguageLists = LanguageLists(spell: seq<string>, synonyms: seq<string>, context: seq<string>, translation: seq<string>)

  const MethodMissing := "Method's param must be filled."
  const FromMissing := "From language param must be filled."
  const FromTypeMessage := "Incorrect the first language param's type. Must be type of string."
  const SecondTypeMessage := "Incorrect the second langauge params' type. Must be type of string."
  const LanguageUnsupported := "Incorrect language specified."
  const LanguagesUnsupported := "Incorrect languages specified."
  const UnknownMethod := "Incorrect method's name."

  /** A two-language operation: the list membership test, then
      `checkCompatibility(m, ...).then(() => resolve(true)).catch(err => reject(err))`. */
  function PairCheck(m: string, list: seq<string>, from: JsValue, to: JsValue, compatibility: seq<Compatibility.MethodEntry>): (r: Result<bool>)
    requires m == "context" || m == "translation"
    ensures r.Ok? ==> r.value
    ensures r.Ok? <==> to.Str? && Includes(list, from) && Includes(list, to) && Compatibility.Compatible(compatibility, m, from, to.s)
    ensures !(Includes(list, from) && Includes(list, to)) ==> r == Err(Rejected(LanguagesUnsupported))
  {
    Compatibility.CompatibilityDecision(m, from, to, compatibility);
    if Includes(list, from) && Includes(list, to) then
      match Compatibility.CheckCompatibility(Str(m), from, to, compatibility)
      case Ok(_) => Ok(true)
      case Err(e) => Err(e)
    else Err(Rejected(LanguagesUnsupported))
  }

  /** `checkLanguage(method, from_language, to_language)`. */
  function Validate(op: JsValue, from: JsValue, to: JsValue, lists: LanguageLists, compatibility: seq<Compatibility.MethodEntry>): (r: Result<bool>)
    ensures r.Ok? ==> r.value
    ensures op.Null? ==> r == Err(Rejected(MethodMissing))
    ensures r.Ok? <==>
      from.Str? &&
      (if to.Null? then
         || (op == Str("spell") && from.s in lists.spell)
         || (op == Str("synonym") && from.s in lists.synonyms)
       else
         || (op == Str("context") && Includes(lists.context, to) && from.s in lists.context
             && Compatibility.CheckCompatibility(op, from, to, compatibility).Ok?)
         || (op == Str("translation") && Includes(lists.translation, to) && from.s in lists.translation
             && Compatibility.CheckCompatibility(op, from, to, compatibility).Ok?))
  {
    if op.Null? then Err(Rejected(MethodMissing))
    else if from.Null? then Err(Rejected(FromMissing))
    else if !from.Str? then Err(Rejected(FromTypeMessage))
    else if to.Null? then
      if op == Str("spell") then
        if from.s in lists.spell then Ok(true) else Err(Rejected(LanguageUnsupported))
      else if op == Str("synonym") then
        if from.s in lists.synonyms then Ok(true) else Err(Rejected(LanguageUnsupported))
      else Err(Rejected(UnknownMethod))
    else if !from.Str? && !to.Str? then Err(Rejected(SecondTypeMessage))
    else if op == Str("context") then PairCheck("context", lists.context, from, to, compatibility)
    else if op == Str("translation") then PairCheck("translation", lists.translation, from, to, compatibility)
    else Err(Rejected(UnknownMethod))
  }

  /** A null or non-string source language is rejected whatever the method and
      the target, before the dispatch. */
  lemma SourceCheckedFirst(op: JsValue, from: JsValue, to: JsValue, lists: LanguageLists, compatibility: seq<Compatibility.MethodEntry>)
    requires !op.Null? && !from.Str?
    ensures Validate(op, from, to, lists, compatibility)
         == Err(Rejected(if from.Null? then FromMissing else FromTypeMessage))
  {
  }

  /** Without a target, only 'spell' and 'synonym' are methods. */
  lemma SingleLanguageMethods(op: JsValue, from: string, lists: LanguageLists, compatibility: seq<Compatibility.MethodEntry>)
    requires !op.Null? && op != Str("spell") && op != Str("synonym")
    ensures Validate(op, Str(from), Null, lists, compatibility) == Err(Rejected(UnknownMethod))
  {
  }

  /** A single language missing from its list is rejected with the
      one-language message. */
  lemma SingleListMissRejected(m: string, from: string, lists: LanguageLists, compatibility: seq<Compatibility.MethodEntry>)
    requires (m == "spell" && from !in lists.spell) || (m == "synonym" && from !in lists.synonyms)
    ensures Validate(Str(m), Str(from), Null, lists, compatibility) == Err(Rejected(LanguageUnsupported))
  {
  }

  /** A pair with a language missing from the method's list is rejected with
      the two-language message, before the compatibility table is read. */
  lemma PairListMissRejected(m: string, from: string, to: JsValue, lists: LanguageLists, compatibility: seq<Compatibility.MethodEntry>)
    requires m == "context" || m == "translation"
    requires !to.Null?
    requires var list := if m == "context" then lists.context else lists.translation;
      !(from in list && Includes(list, to))
    ensures Validate(Str(m), Str(from), to, lists, compatibility) == Err(Rejected(LanguagesUnsupported))
  {
  }

  /** With a target, only 'context' and 'translation' are methods. */
  lemma UnknownMethodWithTarget(op: JsValue, from: string, to: JsValue, lists: LanguageLists, compatibility: seq<Compatibility.MethodEntry>)
    requires !op.Null? && op != Str("context") && op != Str("translation")
    requires !to.Null?
    ensures Validate(op, Str(from), to, lists, compatibility) == Err(Rejected(UnknownMethod))
  {
  }

  /** The rejection for two non-string languages can never be produced: a
      non-string source is rejected earlier. */
  lemma SecondTypeCheckUnreachable(op: JsValue, from: JsValue, to: JsValue, lists: LanguageLists, compatibility: seq<Compatibility.MethodEntry>)
    ensures Validate(op, from, to, lists, compatibility) != Err(Rejected(SecondTypeMessage))
  {
  }

  /** With a target, 'context' and 'translation' succeed exactly when both
      languages are listed and the compatibility table pairs them. */
  lemma {:induction false} PairDecision(m: string, from: string, to: string, lists: LanguageLists, compatibility: seq<Compatibility.MethodEntry>)
    requires m == "context" || m == "translation"
    ensures var list := if m == "context" then lists.context else lists.translation;
      Validate(Str(m), Str(from), Str(to), lists, compatibility).Ok?
      <==> from in list && to in list && Compatibility.Compatible(compatibility, m, Str(from), to)
  {
    Compatibility.CompatibilityDecision(m, Str(from), Str(to), compatibility);
  }

  /** The errors of the compatibility check reach the caller unchanged. */
  lemma CompatibilityErrorPropagates(m: string, from: string, to: JsValue, lists: LanguageLists, compatibility: seq<Compatibility.MethodEntry>)
    requires m == "context" || m == "translation"
    requires var list := if m == "context" then lists.context else lists.translation;
      from in list && Includes(list, to)
    requires Compatibility.CheckCompatibility(Str(m), Str(from), to, compatibility).Err?
    ensures Validate(Str(m), Str(from), to, lists, compatibility) == Compatibility.CheckCompatibility(Str(m), Str(from), to, compatibility)
  {
  }
}
