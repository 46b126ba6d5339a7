/** `translate_frontmatter`: translate the string values of a document's YAML frontmatter
    one by one through `Translator.TranslateText`, keeping keys, order and every other value.
    YAML is outside the model: `parse` stands for `yaml.safe_load` and `dump` for `yaml.dump`.
    A mapping is the dictionary's items in order; a non-string value is kept as an opaque
    rendering. */
module FrontmatterTranslation {
  import opened Wrappers
  import opened Strings
  import opened Config
  import opened PromptHints
  import opened Translator

  datatype YamlValue = Str(text: string) | NonString(repr: string)

  type YamlEntries = seq<(string, YamlValue)>

  /** What `yaml.safe_load` gives: a dictionary, any other value, or an exception. */
  datatype Parsed = Dict(entries: YamlEntries) | NotDict | Unparsable

  /** The values that get translated: strings whose `strip()` is not empty
      (see `BlankLineIffStripEmpty`). */
  predicate Translatable(v: YamlValue) {
    v.Str? && !BlankLine(v.text)
  }

  /** The indentation of the triple-quoted field prompt. */
  const FieldIndent := "                "

  /** The system prompt for one frontmatter field. */
  function FieldPrompt(lang: string): (r: string)
    ensures StartsWith(r, FieldOpening + lang)
    ensures EndsWith(r, FieldRest)
    ensures Contains(r, lang)
  {
    var r := FieldOpening + lang + FieldRest;
    assert r[..|FieldOpening + lang|] == FieldOpening + lang;
    assert r[|r| - |FieldRest|..] == FieldRest;
    ContainsSelf(FieldOpening, lang, FieldRest);
    r
  }

  const FieldOpening := "\n" + FieldIndent + "Translate the following " + "short text from Russian to "

  const FieldRest :=
    ".\n"
    + FieldIndent + "IMPORTANT: The text is a single field in a YAML frontmatter, "
    + "so the translation MUST be a SINGLE LINE.\n"
    + FieldIndent + "DO NOT add any explanations, quotes, or multiple lines.\n"
    + FieldIndent + "DO NOT include the original Russian text in your response.\n"
    + FieldIndent + "JUST translate the text as concisely as possible.\n"
    + FieldIndent

  // ---------------------------------------------------------------- the text handed to YAML

  /** The frontmatter with its first `---` removed and the text from its last `---` on cut. */
  function YamlText(fm: string): (r: string)
    ensures |r| <= |fm|
    ensures Find(Strip(fm), "---", 0) == -1 ==> r == Strip(fm)
  {
    var y := ReplaceFirst(Strip(fm), "---", "");
    var e := RFind(y, "---");
    if e != -1 then Strip(y[..e]) else y
  }

  lemma StripUnframed(s: string)
    requires |s| > 0 && !IsSpace(s[0]) && !IsSpace(s[|s| - 1])
    ensures Strip(s) == s
  {
    StripKeepsFirst(s);
  }

  /** Between the markers, YAML sees the stripped inside of the frontmatter. */
  lemma MarkersRemoved(y: string)
    ensures YamlText("---" + y + "---") == Strip(y)
  {
    var fm := "---" + y + "---";
    assert fm[0] == '-' && fm[|fm| - 1] == '-';
    StripUnframed(fm);
    assert fm[..3] == "---";
    assert OccursAt(fm, "---", 0);
    assert Find(fm, "---", 0) == 0;
    var rest := fm[3..];
    assert rest == y + "---";
    assert ReplaceFirst(fm, "---", "") == rest;
    assert rest[|y|..|y| + 3] == "---";
    assert OccursAt(rest, "---", |y|);
    assert RFind(rest, "---") == |y|;
    assert rest[..|y|] == y;
  }

  // ---------------------------------------------------------------- tidying one value

  const Quotes := {'"', '\''}

  /** The chars of a stripped string are chars of the string. */
  lemma StripKeepsChars(s: string, c: char)
    requires forall i :: 0 <= i < |s| ==> s[i] != c
    ensures forall i :: 0 <= i < |Strip(s)| ==> Strip(s)[i] != c
  {
    hide LStrip;
    hide RStrip;
    var l := LStrip(s);
    var r := RStrip(l);
    assert Strip(s) == r;
    forall i | 0 <= i < |r|
      ensures r[i] != c
    {
      assert r[i] == l[i];
      assert l[i] == s[|s| - |l| + i];
    }
  }

  /** The clean-up applied to the translation of a field: the reply cleaning of `translate_text`
      once more, then quotes stripped, newlines turned into spaces and whitespace stripped.
      The result is a single line. */
  function Tidy(t: string): (r: string)
    ensures forall i :: 0 <= i < |r| ==> r[i] != '\n'
  {
    var u := ReplaceChar(StripSet(Clean(t), Quotes), '\n', ' ');
    StripKeepsChars(u, '\n');
    Strip(u)
  }

  // ---------------------------------------------------------------- the value loop

  /** What translating one field gives: the tidied translation, or `None` when the call
      raised; and the tokens the call counted. */
  type FieldTranslator = string -> (Option<string>, nat)

  /** One field through `translate_text` with the system prompt `prompt` and a fresh context. */
  function FieldResult(client: Request -> Reply, model: string, g: Glossary, lang: string,
                       prompt: string, hints: string, v: string): (Option<string>, nat)
  {
    var r := TranslateSpec(client, model, g, v, lang, prompt, hints, FreshSnapshot);
    (if r.0.Raised? then None else Some(Tidy(r.0.text)), r.2)
  }

  function Field(client: Request -> Reply, model: string, g: Glossary, lang: string,
                 prompt: string, hints: string): FieldTranslator {
    v => FieldResult(client, model, g, lang, prompt, hints, v)
  }

  predicate SingleLine(s: string) {
    forall j :: 0 <= j < |s| ==> s[j] != '\n'
  }

  /** A translated field is a single line, and a field fails exactly when the glossary has a
      null value. */
  lemma FieldFacts(client: Request -> Reply, model: string, g: Glossary, lang: string,
                   prompt: string, hints: string, v: string)
    ensures var f := Field(client, model, g, lang, prompt, hints)(v);
            (f.0.Some? ==> SingleLine(f.0.value)) && (f.0.None? <==> !Loadable(g))
  {
    RaisesIffNullTerm(client, model, g, v, lang, prompt, hints, FreshSnapshot);
  }

  /** The loop over the first `n` items: the translated items, or `None` once a call raised;
      and the tokens counted so far. */
  function TranslateEntries(field: FieldTranslator, items: YamlEntries, n: nat): (Option<YamlEntries>, nat)
    requires n <= |items|
  {
    if n == 0 then (Some([]), 0)
    else EntryStep(field, items[n - 1], TranslateEntries(field, items, n - 1))
  }

  /** One turn of that loop. */
  function EntryStep(field: FieldTranslator, item: (string, YamlValue), prev: (Option<YamlEntries>, nat))
    : (Option<YamlEntries>, nat)
  {
    if prev.0.None? then prev
    else if Translatable(item.1) then
      var f := field(item.1.text);
      (if f.0.None? then None else Some(prev.0.value + [(item.0, Str(f.0.value))]), prev.1 + f.1)
    else (Some(prev.0.value + [item]), prev.1)
  }

  /** `translate_frontmatter`: the new frontmatter and the tokens counted. */
  function FrontmatterSpec(field: FieldTranslator, parse: string -> Parsed, dump: YamlEntries -> string,
                           fm: string): (string, nat)
  {
    var data := parse(YamlText(fm));
    if !data.Dict? || data.entries == [] then (fm, 0)
    else
      var t := TranslateEntries(field, data.entries, |data.entries|);
      if t.0.None? then (fm, t.1) else ("---\n" + dump(t.0.value) + "---", t.1)
  }

  // ---------------------------------------------------------------- properties

  /** Each item keeps its key and place; a value that is not a non-blank string is kept as it
      is, and, with a field translator whose results are single lines, every translated value
      is a single-line string. */
  lemma {:induction false} EntriesShape(field: FieldTranslator, items: YamlEntries, n: nat)
    requires n <= |items|
    requires forall v :: field(v).0.Some? ==> SingleLine(field(v).0.value)
    requires TranslateEntries(field, items, n).0.Some?
    ensures var r := TranslateEntries(field, items, n).0.value;
            |r| == n
            && (forall i :: 0 <= i < n ==> r[i].0 == items[i].0)
            && (forall i :: 0 <= i < n && !Translatable(items[i].1) ==> r[i].1 == items[i].1)
            && (forall i :: 0 <= i < n && Translatable(items[i].1) ==> r[i].1.Str? && SingleLine(r[i].1.text))
  {
    if n > 0 {
      var prev := TranslateEntries(field, items, n - 1);
      assert prev.0.Some?;
      EntriesShape(field, items, n - 1);
      StepShape(field, items[n - 1], prev);
    }
  }

  lemma StepShape(field: FieldTranslator, item: (string, YamlValue), prev: (Option<YamlEntries>, nat))
    requires forall v :: field(v).0.Some? ==> SingleLine(field(v).0.value)
    requires EntryStep(field, item, prev).0.Some?
    ensures prev.0.Some?
    ensures var r := EntryStep(field, item, prev).0.value;
            var k := |prev.0.value|;
            |r| == k + 1 && r[..k] == prev.0.value && r[k].0 == item.0
            && (!Translatable(item.1) ==> r[k].1 == item.1)
            && (Translatable(item.1) ==> r[k].1.Str? && SingleLine(r[k].1.text))
  {
  }

  /** With a field translator that fails exactly when `failing` holds, the loop fails exactly
      when `failing` holds and some item is translatable. */
  lemma {:induction false} EntriesFailIff(field: FieldTranslator, failing: bool, items: YamlEntries, n: nat)
    requires n <= |items|
    requires forall v :: field(v).0.None? <==> failing
    ensures TranslateEntries(field, items, n).0.None?
            <==> failing && exists i :: 0 <= i < n && Translatable(items[i].1)
  {
    if n > 0 {
      EntriesFailIff(field, failing, items, n - 1);
      assert (exists i :: 0 <= i < n && Translatable(items[i].1))
             <==> (exists i :: 0 <= i < n - 1 && Translatable(items[i].1)) || Translatable(items[n - 1].1);
    }
  }

  /** An empty or non-dictionary frontmatter, or one that does not parse, is returned as it is
      and costs no tokens. */
  lemma NothingToTranslate(field: FieldTranslator, parse: string -> Parsed, dump: YamlEntries -> string, fm: string)
    requires var data := parse(YamlText(fm)); !data.Dict? || data.entries == []
    ensures FrontmatterSpec(field, parse, dump, fm) == (fm, 0)
  {
  }

  /** Through the translator, the frontmatter comes back unchanged when a translation raises;
      otherwise it is the dump, between markers, of items with the same keys in the same order,
      the untranslatable values untouched and every translated value on a single line. */
  lemma FrontmatterResult(client: Request -> Reply, model: string, g: Glossary, lang: string,
                          prompt: string, hints: string,
                          parse: string -> Parsed, dump: YamlEntries -> string, fm: string)
    requires parse(YamlText(fm)).Dict? && parse(YamlText(fm)).entries != []
    ensures var items := parse(YamlText(fm)).entries;
            var field := Field(client, model, g, lang, prompt, hints);
            var r := FrontmatterSpec(field, parse, dump, fm).0;
            if !Loadable(g) && exists i :: 0 <= i < |items| && Translatable(items[i].1) then r == fm
            else exists t: YamlEntries ::
                   r == "---\n" + dump(t) + "---" && |t| == |items|
                   && (forall i :: 0 <= i < |t| ==> t[i].0 == items[i].0)
                   && (forall i :: 0 <= i < |t| && !Translatable(items[i].1) ==> t[i].1 == items[i].1)
                   && (forall i :: 0 <= i < |t| && Translatable(items[i].1) ==> t[i].1.Str? && SingleLine(t[i].1.text))
  {
    var items := parse(YamlText(fm)).entries;
    var field := Field(client, model, g, lang, prompt, hints);
    forall v
      ensures (field(v).0.Some? ==> SingleLine(field(v).0.value)) && (field(v).0.None? <==> !Loadable(g))
    {
      FieldFacts(client, model, g, lang, prompt, hints, v);
    }
    EntriesFailIff(field, !Loadable(g), items, |items|);
    var t := TranslateEntries(field, items, |items|);
    if t.0.Some? {
      EntriesShape(field, items, |items|);
      assert FrontmatterSpec(field, parse, dump, fm).0 == "---\n" + dump(t.0.value) + "---";
    }
  }

  // ---------------------------------------------------------------- the method

  /** `translate_frontmatter(frontmatter, translator.translate_text, lang, ...)`. */
  method TranslateFrontmatter(fm: string, translator: Translator, lang: string, store: HintStore,
                              parse: string -> Parsed, dump: YamlEntries -> string) returns (r: string)
    modifies translator
    ensures var spec := FrontmatterSpec(Field(translator.client, translator.modelName, translator.glossary, lang,
                                              FieldPrompt(lang), HintText(store.File(lang))), parse, dump, fm);
            r == spec.0 && translator.totalTokensProcessed == old(translator.totalTokensProcessed) + spec.1
  {
    r := TranslateWith(fm, translator, lang, FieldPrompt(lang), store, parse, dump);
  }

  /** The body of `translate_frontmatter`, with the field prompt `prompt`. */
  method TranslateWith(fm: string, translator: Translator, lang: string, prompt: string, store: HintStore,
                       parse: string -> Parsed, dump: YamlEntries -> string) returns (r: string)
    modifies translator
    ensures var spec := FrontmatterSpec(Field(translator.client, translator.modelName, translator.glossary, lang,
                                              prompt, HintText(store.File(lang))), parse, dump, fm);
            r == spec.0 && translator.totalTokensProcessed == old(translator.totalTokensProcessed) + spec.1
  {
    var data := parse(YamlText(fm));
    if !data.Dict? || data.entries == [] {
      return fm;
    }
    var translated := TranslateItems(translator, lang, prompt, store, data.entries);
    if translated.None? {
      return fm;
    }
    return "---\n" + dump(translated.value) + "---";
  }

  /** The loop over the items of the parsed frontmatter, each string field translated with
      the system prompt `prompt`. */
  method TranslateItems(translator: Translator, lang: string, prompt: string, store: HintStore, items: YamlEntries)
    returns (r: Option<YamlEntries>)
    modifies translator
    ensures var t := TranslateEntries(Field(translator.client, translator.modelName, translator.glossary, lang,
                                            prompt, HintText(store.File(lang))), items, |items|);
            r == t.0 && translator.totalTokensProcessed == old(translator.totalTokensProcessed) + t.1
  {
    ghost var field := Field(translator.client, translator.modelName, translator.glossary, lang,
                             prompt, HintText(store.File(lang)));
    var done: YamlEntries := [];
    var i := 0;
    while i < |items|
      invariant 0 <= i <= |items|
      invariant field == Field(translator.client, translator.modelName, translator.glossary, lang,
                               prompt, HintText(store.File(lang)))
      invariant var t := TranslateEntries(field, items, i);
                t.0 == Some(done) && translator.totalTokensProcessed == old(translator.totalTokensProcessed) + t.1
    {
      ghost var prev := TranslateEntries(field, items, i);
      var next := ItemTurn(translator, lang, prompt, store, items[i], done, prev);
      if next.None? {
        AbortPersists(field, items, i + 1);
        return None;
      }
      done := next.value;
      i := i + 1;
    }
    return Some(done);
  }

  /** One turn of that loop. */
  method ItemTurn(translator: Translator, lang: string, prompt: string, store: HintStore,
                  item: (string, YamlValue), done: YamlEntries, ghost prev: (Option<YamlEntries>, nat))
    returns (r: Option<YamlEntries>)
    requires prev.0 == Some(done)
    modifies translator
    ensures var step := EntryStep(Field(translator.client, translator.modelName, translator.glossary, lang,
                                        prompt, HintText(store.File(lang))), item, prev);
            r == step.0 && translator.totalTokensProcessed + prev.1 == old(translator.totalTokensProcessed) + step.1
  {
    if Translatable(item.1) {
      var translated := TranslateField(translator, lang, prompt, store, item.1.text);
      if translated.None? {
        return None;
      }
      return Some(done + [(item.0, Str(translated.value))]);
    }
    return Some(done + [item]);
  }

  /** After a raise the loop stops: later items change nothing. */
  lemma {:induction false} AbortPersists(field: FieldTranslator, items: YamlEntries, n: nat)
    requires n <= |items|
    requires TranslateEntries(field, items, n).0.None?
    ensures TranslateEntries(field, items, |items|) == TranslateEntries(field, items, n)
    decreases |items| - n
  {
    if n < |items| {
      AbortPersists(field, items, n + 1);
    }
  }

  /** One field: `translate_text` with `prompt` and a fresh context, then tidied. */
  method TranslateField(translator: Translator, lang: string, prompt: string, store: HintStore, v: string)
    returns (r: Option<string>)
    modifies translator
    ensures var f := Field(translator.client, translator.modelName, translator.glossary, lang,
                           prompt, HintText(store.File(lang)))(v);
            r == f.0 && translator.totalTokensProcessed == old(translator.totalTokensProcessed) + f.1
  {
    var context := new Context();
    var outcome, _ := translator.TranslateText(v, lang, prompt, context, store);
    if outcome.Raised? {
      return None;
    }
    return Some(Tidy(outcome.text));
  }
}
