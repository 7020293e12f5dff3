/** The pair check of src/utils/checkCompatibility.js over the table of
    ../languages/compatibility.json, which is a parameter here. */
module Compatibility {
  import opened Js

  /** `{ name, compatible_with }`: the targets one source language pairs with. */
  datatype LanguageEntry = LanguageEntry(name: string, compatibleWith: seq<string>)

  /** `{ method, language }`: the language entries of one operation. */
  datatype MethodEntry = MethodEntry(methodName: string, language: seq<LanguageEntry>)

  const MethodMissing := "Method's param must be filled."
  const FromMissing := "From language param must be filled."
  const ToMissing := "To language param must be filled."
  const TypeMessage := "Incorrect langauge params' type. Must be type of string."
  const Unsupported := "Unsupported languages' combination."
  const UnknownMethod := "Incorrect method's name."

  /** The `find` callback selecting the entry of operation `m`. */
  function MethodIs(m: string): MethodEntry -> bool
  {
    (e: MethodEntry) => e.methodName == m
  }

  /** The `find` callback selecting the entry named `from` (strict equality,
      so a non-string `from` selects nothing). */
  function NameIs(from: JsValue): LanguageEntry -> bool
  {
    (e: LanguageEntry) => Str(e.name) == from
  }

  /** The reference reading of the table: the first entry of operation `m`
      lists, under its first language entry named `from`, the target `to`. */
  ghost predicate Compatible(compatibility: seq<MethodEntry>, m: string, from: JsValue, to: string)
  {
    exists i, j ::
      && FirstAt(compatibility, MethodIs(m), i)
      && FirstAt(compatibility[i].language, NameIs(from), j)
      && to in compatibility[i].language[j].compatibleWith
  }

  /** `checkCompatibility(method, from_language, to_language)`. A missing
      operation entry or a missing entry for `from_language` makes the
      property read throw inside the promise, which then rejects with that
      TypeError. */
  function CheckCompatibility(op: JsValue, from: JsValue, to: JsValue, compatibility: seq<MethodEntry>): (r: Result<bool>)
    ensures r.Ok? ==> r.value
    ensures op.Null? ==> r == Err(Rejected(MethodMissing))
    ensures !op.Null? && from.Null? ==> r == Err(Rejected(FromMissing))
    ensures !op.Null? && !from.Null? && to.Null? ==> r == Err(Rejected(ToMissing))
    ensures r == Err(Rejected(TypeMessage)) <==> !op.Null? && from == Other && to == Other
  {
    if op.Null? then Err(Rejected(MethodMissing))
    else if from.Null? then Err(Rejected(FromMissing))
    else if to.Null? then Err(Rejected(ToMissing))
    else if !from.Str? && !to.Str? then Err(Rejected(TypeMessage))
    else if op == Str("context") || op == Str("translation") then
      match Find(compatibility, MethodIs(op.s))
      case None => Err(ReadOfUndefined("language"))
      case Some(data) =>
        match Find(data.language, NameIs(from))
        case None => Err(ReadOfUndefined("compatible_with"))
        case Some(entry) =>
          if Includes(entry.compatibleWith, to) then Ok(true)
          else Err(Rejected(Unsupported))
    else Err(Rejected(UnknownMethod))
  }

  /** 'context' and 'translation' succeed exactly for the pairs the table
      lists, read as `Compatible` reads it. */
  lemma CompatibilityDecision(m: string, from: JsValue, to: JsValue, compatibility: seq<MethodEntry>)
    requires m == "context" || m == "translation"
    ensures CheckCompatibility(Str(m), from, to, compatibility).Ok?
        <==> to.Str? && Compatible(compatibility, m, from, to.s)
  {
    if to.Str? && Compatible(compatibility, m, from, to.s) {
      var i, j :|
        && FirstAt(compatibility, MethodIs(m), i)
        && FirstAt(compatibility[i].language, NameIs(from), j)
        && to.s in compatibility[i].language[j].compatibleWith;
      FindFirst(compatibility, MethodIs(m), i);
      FindFirst(compatibility[i].language, NameIs(from), j);
    }
    if CheckCompatibility(Str(m), from, to, compatibility).Ok? {
      var data := Find(compatibility, MethodIs(m)).value;
      var i :| FirstAt(compatibility, MethodIs(m), i) && compatibility[i] == data;
      var entry := Find(data.language, NameIs(from)).value;
      var j :| FirstAt(data.language, NameIs(from), j) && data.language[j] == entry;
      assert to.Str? && to.s in entry.compatibleWith;
    }
  }

  /** A source language without an entry never resolves: the promise rejects
      with the TypeError of reading `compatible_with` of undefined. */
  lemma MissingSourceNeverResolves(m: string, from: JsValue, to: JsValue, compatibility: seq<MethodEntry>)
    requires m == "context" || m == "translation"
    requires !from.Null? && !to.Null? && (from.Str? || to.Str?)
    requires Find(compatibility, MethodIs(m)).Some?
    requires forall j | 0 <= j < |Find(compatibility, MethodIs(m)).value.language| ::
      Str(Find(compatibility, MethodIs(m)).value.language[j].name) != from
    ensures CheckCompatibility(Str(m), from, to, compatibility) == Err(ReadOfUndefined("compatible_with"))
  {
    var data := Find(compatibility, MethodIs(m)).value;
    var i :| FirstAt(compatibility, MethodIs(m), i) && compatibility[i] == data;
  }

  /** An operation with no entry in the table never resolves: the promise
      rejects with the TypeError of reading `language` of undefined. */
  lemma MissingGroupReadsUndefined(m: string, from: JsValue, to: JsValue, compatibility: seq<MethodEntry>)
    requires m == "context" || m == "translation"
    requires !from.Null? && !to.Null? && (from.Str? || to.Str?)
    requires Find(compatibility, MethodIs(m)).None?
    ensures CheckCompatibility(Str(m), from, to, compatibility) == Err(ReadOfUndefined("language"))
  {
  }

  /** A source language whose first entry does not list the target is
      rejected with the unsupported-combination message. */
  lemma UnsupportedPairRejected(m: string, from: JsValue, to: JsValue, compatibility: seq<MethodEntry>)
    requires m == "context" || m == "translation"
    requires !from.Null? && !to.Null? && (from.Str? || to.Str?)
    requires Find(compatibility, MethodIs(m)).Some?
    requires Find(Find(compatibility, MethodIs(m)).value.language, NameIs(from)).Some?
    requires !Includes(Find(Find(compatibility, MethodIs(m)).value.language, NameIs(from)).value.compatibleWith, to)
    ensures CheckCompatibility(Str(m), from, to, compatibility) == Err(Rejected(Unsupported))
  {
  }

  /** Any method name other than 'context' and 'translation' is rejected once
      the arguments are present and one of the languages is a string. */
  lemma UnknownMethodRejected(op: JsValue, from: JsValue, to: JsValue, compatibility: seq<MethodEntry>)
    requires !op.Null? && op != Str("context") && op != Str("translation")
    requires !from.Null? && !to.Null? && (from.Str? || to.Str?)
    ensures CheckCompatibility(op, from, to, compatibility) == Err(Rejected(UnknownMethod))
  {
  }
}
