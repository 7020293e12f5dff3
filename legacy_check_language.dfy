/** The older exported validator of src/checkLanguage.js: the same dispatch as
    the current one, but with no compatibility check, its own messages, and
    the source language's type tested only on the single-language branch.
    The language lists (the files under ./languages) are parameters. */
module LegacyCheckLanguage {
  import opened Js
  import CheckLanguage
  import Compatibility

  /** The lists of ./languages/spell, synonym, context and translation. The
      spell, context and translation files are the ones the current validator
      reads; the synonym list is a file of its own (./languages/synonym, not
      ../languages/synonyms). */
  datatype LegacyLists = LegacyLists(spell: seq<string>, synonym: seq<string>, context: seq<string>, translation: seq<string>)

  const MethodMissing := "Method param must be filled."
  const FromMissing := "From language param must be filled."
  const SingleTypeMessage := "Incorrect param's type. Must be type of string."
  const PairTypeMessage := "Incorrect params' type. Must be type of string."
  const LanguageUnsupported := "Incorrect language specified."
  const LanguagesUnsupported := "Incorrect languages specified."
  const UnknownMethod := "Incorrect method name."

  /** `checkLanguage(method, from_language, to_language)` of src/checkLanguage.js. */
  function Validate(op: JsValue, from: JsValue, to: JsValue, lists: LegacyLists): (r: Result<bool>)
    ensures r.Ok? ==> r.value
    ensures r.Ok? <==>
      if to.Null? then
        from.Str? &&
        (|| (op == Str("spell") && from.s in lists.spell)
         || (op == Str("synonym") && from.s in lists.synonym))
      else
        || (op == Str("context") && Includes(lists.context, from) && Includes(lists.context, to))
        || (op == Str("translation") && Includes(lists.translation, from) && Includes(lists.translation, to))
    ensures r == Err(Rejected(PairTypeMessage)) <==> !op.Null? && from == Other && !to.Null? && !to.Str?
  {
    if op.Null? then Err(Rejected(MethodMissing))
    else if from.Null? then Err(Rejected(FromMissing))
    else if to.Null? then
      if !from.Str? then Err(Rejected(SingleTypeMessage))
      else if op == Str("spell") then
        if from.s in lists.spell then Ok(true) else Err(Rejected(LanguageUnsupported))
      else if op == Str("synonym") then
        if from.s in lists.synonym then Ok(true) else Err(Rejected(LanguageUnsupported))
      else Err(Rejected(UnknownMethod))
    else if !from.Str? && !to.Str? then Err(Rejected(PairTypeMessage))
    else if op == Str("context") then
      if Includes(lists.context, from) && Includes(lists.context, to) then Ok(true)
      else Err(Rejected(LanguagesUnsupported))
    else if op == Str("translation") then
      if Includes(lists.translation, from) && Includes(lists.translation, to) then Ok(true)
      else Err(Rejected(LanguagesUnsupported))
    else Err(Rejected(UnknownMethod))
  }

  /** A null method, then a null source language, are rejected first. */
  lemma MissingParamsFirst(op: JsValue, from: JsValue, to: JsValue, lists: LegacyLists)
    requires op.Null? || from.Null?
    ensures Validate(op, from, to, lists) == Err(Rejected(if op.Null? then MethodMissing else FromMissing))
  {
  }

  /** Without a target, a non-string source is rejected with the type message
      before the method is looked at. */
  lemma SingleSourceTypeCheckedFirst(op: JsValue, from: JsValue, lists: LegacyLists)
    requires !op.Null? && !from.Null? && !from.Str?
    ensures Validate(op, from, Null, lists) == Err(Rejected(SingleTypeMessage))
  {
  }

  /** A single language missing from its list is rejected with the
      one-language message. */
  lemma SingleListMissRejected(m: string, from: string, lists: LegacyLists)
    requires (m == "spell" && from !in lists.spell) || (m == "synonym" && from !in lists.synonym)
    ensures Validate(Str(m), Str(from), Null, lists) == Err(Rejected(LanguageUnsupported))
  {
  }

  /** A pair with a language missing from the method's list is rejected with
      the two-language message. */
  lemma PairListMissRejected(m: string, from: JsValue, to: JsValue, lists: LegacyLists)
    requires m == "context" || m == "translation"
    requires !from.Null? && !to.Null? && (from.Str? || to.Str?)
    requires var list := if m == "context" then lists.context else lists.translation;
      !(Includes(list, from) && Includes(list, to))
    ensures Validate(Str(m), from, to, lists) == Err(Rejected(LanguagesUnsupported))
  {
  }

  /** Once the arguments pass their checks, a method that does not belong to
      the branch the target selects ('spell' and 'synonym' without a target,
      'context' and 'translation' with one) is rejected as unknown. */
  lemma UnknownMethodRejected(op: JsValue, from: JsValue, to: JsValue, lists: LegacyLists)
    requires !op.Null? && !from.Null?
    requires to.Null? ==> from.Str? && op != Str("spell") && op != Str("synonym")
    requires !to.Null? ==> (from.Str? || to.Str?) && op != Str("context") && op != Str("translation")
    ensures Validate(op, from, to, lists) == Err(Rejected(UnknownMethod))
  {
  }

  /** The branch follows the nullness of the target: 'spell' with a target and
      'context' without one are unknown methods. */
  lemma MethodMustMatchArity(from: string, to: string, lists: LegacyLists)
    ensures Validate(Str("spell"), Str(from), Str(to), lists) == Err(Rejected(UnknownMethod))
    ensures Validate(Str("context"), Str(from), Null, lists) == Err(Rejected(UnknownMethod))
  {
  }

  /** Over the same spell, context and translation files, the only requests
      the current validator accepts and the older one rejects are 'synonym'
      requests for a name the current synonyms list has and the older
      synonym list lacks; with equal synonym lists there are none. */
  lemma {:induction false} CurrentStricterThanLegacy(op: JsValue, from: JsValue, to: JsValue, lists: CheckLanguage.LanguageLists,
                                                     legacy: LegacyLists, compatibility: seq<Compatibility.MethodEntry>)
    requires legacy.spell == lists.spell && legacy.context == lists.context && legacy.translation == lists.translation
    ensures CheckLanguage.Validate(op, from, to, lists, compatibility).Ok? && Validate(op, from, to, legacy).Err?
        ==> op == Str("synonym") && to.Null? && from.Str? && from.s in lists.synonyms && from.s !in legacy.synonym
  {
  }
}
