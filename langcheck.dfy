/** The language checks of src/langcheck.js. Each lower-cases its arguments,
    counts the table entries that occur in them as substrings, and returns
    true or throws. The tables (./langs/context and ./langs/spell) are
    parameters. */
module LangCheck {
  import opened Js
  import opened Strings

  /** The two tables the checks read. There is no synonyms table:
      `checkSynonymsLang` counts entries of the context table. */
  datatype LangTables = LangTables(context: seq<string>, spell: seq<string>)

  const ContextTypeMessage := "getContext: values must be strings."
  const ContextUnsupportedMessage :=
    "getContext: Unsupported langauge. Supported langauges: English, Russian, German, Spanish, French, Italian, Polish."
  const SpellTypeMessage := "getSpellCheck: values must be strings."
  const SpellUnsupportedMessage :=
    "getSpellCheck: Unsupported langauge. Supported langauges: English and French."
  const SynonymsTypeMessage := "getSynonyms: values must be strings."
  const SynonymsUnsupportedMessage :=
    "getSynonyms: Unsupported langauge. Supported langauges: English, Russian, German, Spanish, French, Italian, Polish."

  /** `entry` is a substring of at least one of `inputs`. */
  predicate OccursIn(entry: string, inputs: seq<string>)
  {
    exists k | 0 <= k < |inputs| :: Contains(inputs[k], entry)
  }

  /** The positions of the table entries that occur in one of `inputs`: the
      entries the check's loop counts. */
  function Matched(table: seq<string>, inputs: seq<string>): set<int>
  {
    set k | 0 <= k < |table| && OccursIn(table[k], inputs)
  }

  /** One loop step: extending the table by one entry adds its position to the
      matched set exactly when it occurs. */
  lemma MatchedStep(table: seq<string>, i: nat, inputs: seq<string>)
    requires i < |table|
    ensures Matched(table[..i + 1], inputs)
         == Matched(table[..i], inputs) + (if OccursIn(table[i], inputs) then {i} else {})
    ensures i !in Matched(table[..i], inputs)
  {
    var before, after := table[..i], table[..i + 1];
    assert forall k | 0 <= k < i :: after[k] == before[k];
  }

  /** Each entry is counted at most once, so the count never exceeds the
      table's length. */
  lemma {:induction false} MatchedBound(table: seq<string>, inputs: seq<string>, i: nat)
    requires i <= |table|
    ensures |Matched(table[..i], inputs)| <= i
  {
    if i > 0 {
      MatchedBound(table, inputs, i - 1);
      MatchedStep(table, i - 1, inputs);
    }
  }

  /** Asking about the same string twice counts what asking once counts. */
  lemma MatchedSameInput(table: seq<string>, a: string)
    ensures Matched(table, [a, a]) == Matched(table, [a])
  {
    forall k | 0 <= k < |table|
      ensures OccursIn(table[k], [a, a]) <==> OccursIn(table[k], [a])
    {
      if OccursIn(table[k], [a, a]) {
        assert Contains([a][0], table[k]);
      }
      if OccursIn(table[k], [a]) {
        assert Contains([a, a][0], table[k]);
      }
    }
  }

  /** The number of entries of `table` occurring in `inputs` after lower-casing,
      as the loops count it: 0 when one of the inputs is empty, because the
      `if (a && b)` / `if (a)` guard skips the loop. */
  function Count(table: seq<string>, inputs: seq<string>): nat
  {
    if [] !in inputs then |Matched(table, inputs)| else 0
  }

  /** `checkContextLang(a, b)`: true when exactly two context-table entries
      occur in the lower-cased `a` or `b`. */
  function ContextLangResult(a: JsValue, b: JsValue, tables: LangTables): (r: Result<bool>)
    ensures r.Ok? ==> r.value
    ensures r.Err? ==> r.error.Thrown?
    ensures !(a.Str? && b.Str?) ==> r == Err(Thrown(ContextTypeMessage))
  {
    if !(a.Str? && b.Str?) then Err(Thrown(ContextTypeMessage))
    else if Count(tables.context, [ToLower(a.s), ToLower(b.s)]) == 2 then Ok(true)
    else Err(Thrown(ContextUnsupportedMessage))
  }

  /** `checkSpellLang(a)`: true when exactly one spell-table entry occurs in
      the lower-cased `a`. */
  function SpellLangResult(a: JsValue, tables: LangTables): (r: Result<bool>)
    ensures r.Ok? ==> r.value
    ensures r.Err? ==> r.error.Thrown?
    ensures !a.Str? ==> r == Err(Thrown(SpellTypeMessage))
  {
    if !a.Str? then Err(Thrown(SpellTypeMessage))
    else if Count(tables.spell, [ToLower(a.s)]) == 1 then Ok(true)
    else Err(Thrown(SpellUnsupportedMessage))
  }

  /** `checkSynonymsLang(a)`: true when exactly one CONTEXT-table entry occurs
      in the lower-cased `a`. */
  function SynonymsLangResult(a: JsValue, tables: LangTables): (r: Result<bool>)
    ensures r.Ok? ==> r.value
    ensures r.Err? ==> r.error.Thrown?
    ensures !a.Str? ==> r == Err(Thrown(SynonymsTypeMessage))
  {
    if !a.Str? then Err(Thrown(SynonymsTypeMessage))
    else if Count(tables.context, [ToLower(a.s)]) == 1 then Ok(true)
    else Err(Thrown(SynonymsUnsupportedMessage))
  }

  /** The loop of `checkContextLang`. */
  method CheckContextLang(a: JsValue, b: JsValue, tables: LangTables) returns (r: Result<bool>)
    ensures r == ContextLangResult(a, b, tables)
  {
    if !(a.Str? && b.Str?) {
      return Err(Thrown(ContextTypeMessage));
    }
    var a', b' := ToLower(a.s), ToLower(b.s);
    var langs := tables.context;
    var counter := 0;
    if a' != [] && b' != [] {
      for i := 0 to |langs|
        invariant counter == |Matched(langs[..i], [a', b'])|
      {
        MatchedStep(langs, i, [a', b']);
        if Contains(a', langs[i]) || Contains(b', langs[i]) {
          assert Contains([a', b'][0], langs[i]) || Contains([a', b'][1], langs[i]);
          counter := counter + 1;
        }
      }
      assert langs[..|langs|] == langs;
    }
    if counter == 2 {
      r := Ok(true);
    } else {
      r := Err(Thrown(ContextUnsupportedMessage));
    }
  }

  /** The loop shared by `checkSpellLang` and `checkSynonymsLang`: how many
      entries of `langs` occur in the lower-cased `a`. */
  method CountSingle(a: string, langs: seq<string>) returns (counter: nat)
    ensures counter == Count(langs, [ToLower(a)])
  {
    var a' := ToLower(a);
    counter := 0;
    if a' != [] {
      for i := 0 to |langs|
        invariant counter == |Matched(langs[..i], [a'])|
      {
        MatchedStep(langs, i, [a']);
        if Contains(a', langs[i]) {
          assert Contains([a'][0], langs[i]);
          counter := counter + 1;
        }
      }
      assert langs[..|langs|] == langs;
    }
  }

  /** `checkSpellLang`. */
  method CheckSpellLang(a: JsValue, tables: LangTables) returns (r: Result<bool>)
    ensures r == SpellLangResult(a, tables)
  {
    if !a.Str? {
      return Err(Thrown(SpellTypeMessage));
    }
    var counter := CountSingle(a.s, tables.spell);
    if counter == 1 {
      r := Ok(true);
    } else {
      r := Err(Thrown(SpellUnsupportedMessage));
    }
  }

  /** `checkSynonymsLang`. */
  method CheckSynonymsLang(a: JsValue, tables: LangTables) returns (r: Result<bool>)
    ensures r == SynonymsLangResult(a, tables)
  {
    if !a.Str? {
      return Err(Thrown(SynonymsTypeMessage));
    }
    var counter := CountSingle(a.s, tables.context);
    if counter == 1 {
      r := Ok(true);
    } else {
      r := Err(Thrown(SynonymsUnsupportedMessage));
    }
  }

  /** The counter of any check is at most the length of the table it scans. */
  lemma CountBound(table: seq<string>, inputs: seq<string>)
    ensures Count(table, inputs) <= |table|
  {
    MatchedBound(table, inputs, |table|);
    assert table[..|table|] == table;
  }

  /** An empty argument skips the loop and is always rejected. */
  lemma EmptyRejected(s: JsValue, tables: LangTables)
    requires s == Str("")
    ensures forall b :: ContextLangResult(s, b, tables).Err? && ContextLangResult(b, s, tables).Err?
    ensures SpellLangResult(s, tables).Err? && SynonymsLangResult(s, tables).Err?
  {
    assert ToLower("") == "";
  }

  /** The checks ignore case: an argument and its lower-cased form get the
      same answer. */
  lemma {:induction false} ChecksIgnoreCase(a: string, b: JsValue, tables: LangTables)
    ensures ContextLangResult(Str(a), b, tables) == ContextLangResult(Str(ToLower(a)), b, tables)
    ensures ContextLangResult(b, Str(a), tables) == ContextLangResult(b, Str(ToLower(a)), tables)
    ensures SpellLangResult(Str(a), tables) == SpellLangResult(Str(ToLower(a)), tables)
    ensures SynonymsLangResult(Str(a), tables) == SynonymsLangResult(Str(ToLower(a)), tables)
  {
    ToLowerIdempotent(a);
  }

  /** A context pair naming one language twice passes exactly when that name
      alone contains two table entries, which is also when the synonyms check
      on it counts two and so fails. */
  lemma {:induction false} SameLanguagePair(a: string, tables: LangTables)
    ensures ContextLangResult(Str(a), Str(a), tables).Ok? <==> Count(tables.context, [ToLower(a)]) == 2
    ensures ContextLangResult(Str(a), Str(a), tables).Ok? ==> SynonymsLangResult(Str(a), tables).Err?
  {
    MatchedSameInput(tables.context, ToLower(a));
  }

  /** `checkSynonymsLang` reads only the context table. */
  lemma SynonymsIgnoresSpellTable(a: JsValue, t1: LangTables, t2: LangTables)
    requires t1.context == t2.context
    ensures SynonymsLangResult(a, t1) == SynonymsLangResult(a, t2)
  {
  }
}
