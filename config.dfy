/** Configuration lookups: the parsed `config.yaml` and `glossary.yaml`, the per-language
    settings, and the system and validation prompts with their built-in defaults.
    Parsing YAML is outside the model: a loader receives the parse result, or `None` when
    reading or parsing the file raised. */
module Config {
  import opened Wrappers
  import opened Strings

  // ---------------------------------------------------------------- the configuration file

  /** The settings of one language: each prompt is `None` when the key is missing or null. */
  datatype LanguageConfig = LanguageConfig(systemPrompt: Option<string>, validationPrompt: Option<string>)

  datatype General = General(maxTokens: Option<int>, maxWorkers: Option<int>)

  datatype Api = Api(baseUrl: Option<string>, modelName: Option<string>)

  /** A configuration dictionary; a missing top-level key is `None`. */
  datatype Settings = Settings(general: Option<General>, api: Option<Api>,
                               languages: Option<map<string, LanguageConfig>>)

  /** The empty dictionary `{}` used for a language without settings. */
  const NoLanguageConfig := LanguageConfig(None, None)

  /** What `load_config` returns when the file cannot be read or parsed. */
  const DefaultSettings := Settings(Some(General(Some(8000), Some(4))), Some(Api(None, None)), Some(map[]))

  /** `load_config`: the parsed file, or the built-in default when loading raised. */
  function LoadConfig(parsed: Option<Settings>): (c: Settings)
    ensures parsed.Some? ==> c == parsed.value
    ensures parsed.None? ==>
      c.general == Some(General(Some(8000), Some(4))) && c.api == Some(Api(None, None)) && c.languages == Some(map[])
  {
    parsed.GetOr(DefaultSettings)
  }

  /** `get_language_config`: the entry of `lang` under `languages`, or an empty language
      configuration when either level is missing. */
  function LanguageSettings(c: Settings, lang: string): (l: LanguageConfig)
    ensures c.languages.Some? && lang in c.languages.value ==> l == c.languages.value[lang]
    ensures c.languages.None? || lang !in c.languages.value ==> l == NoLanguageConfig
  {
    match c.languages
    case Some(m) => if lang in m then m[lang] else NoLanguageConfig
    case None => NoLanguageConfig
  }

  // ---------------------------------------------------------------- the glossary file

  /** The value stored under a glossary term: a mapping from language codes to translations,
      or `Null` for a term written without a value. Testing `lang in` a null value raises. */
  datatype Translations = Mapping(byLanguage: map<string, string>) | Null

  datatype TermEntry = TermEntry(term: string, translations: Translations)

  /** The `terms` table of the glossary file, in file order. */
  type Glossary = seq<TermEntry>

  /** The parsed glossary document: `terms` is `None` when the key is missing. */
  datatype GlossaryDocument = GlossaryDocument(terms: Option<Glossary>)

  /** `load_glossary`: the `terms` of the parsed file, or empty when the key is missing or
      loading raised. */
  function LoadGlossary(parsed: Option<GlossaryDocument>): (g: Glossary)
    ensures parsed.Some? && parsed.value.terms.Some? ==> g == parsed.value.terms.value
    ensures parsed.None? || parsed.value.terms.None? ==> g == []
  {
    match parsed
    case Some(d) => d.terms.GetOr([])
    case None => []
  }

  /** `lang in translations` for a value that is a mapping. */
  predicate HasTranslation(e: TermEntry, lang: string) {
    e.translations.Mapping? && lang in e.translations.byLanguage
  }

  function TranslationOf(e: TermEntry, lang: string): string
    requires HasTranslation(e, lang)
  {
    e.translations.byLanguage[lang]
  }

  /** No term of the glossary has a null value, so no lookup in it raises. */
  predicate Loadable(g: Glossary) {
    forall k :: 0 <= k < |g| ==> g[k].translations.Mapping?
  }

  // ---------------------------------------------------------------- default prompts

  /** The indentation that the triple-quoted default prompts carry on every line. */
  const Indent := "            "

  const NewLine := "\n" + Indent

  /** The English default and the generic default, for the language named `to`. */
  function TranslationPromptBody(to: string): string {
    TranslateOpening + to + TranslateRest + "."
  }

  const TranslateOpening := "Translate the following " + "markdown text from Russian to "

  const TranslateRest :=
    "." + NewLine
    + "Preserve all markdown formatting, code blocks, and structure." + NewLine
    + "Keep technical terms consistent throughout the translation." + NewLine
    + "Do not translate code snippets, variable names, or commands inside code blocks." + NewLine + NewLine
    + "IMPORTANT: Return ONLY the translated text without any explanations, comments, or additional information." + NewLine
    + "Do not include the original Russian text in your response." + NewLine
    + "Do not add any explanations about your translation process"

  const SpanishPromptBody := SpanishOpening + SpanishRest + "."

  const SpanishOpening := "Traduce el siguiente " + "texto markdown del ruso al español."

  const SpanishRest :=
    NewLine
    + "Conserva todo el formato markdown, bloques de código y estructura." + NewLine
    + "Mantén los términos técnicos consistentes a lo largo de la traducción." + NewLine
    + "No traduzcas fragmentos de código, nombres de variables o comandos dentro de bloques de código." + NewLine + NewLine
    + "IMPORTANTE: Devuelve SOLO el texto traducido sin explicaciones, comentarios o información adicional." + NewLine
    + "No incluyas el texto original en ruso en tu respuesta." + NewLine
    + "No agregues explicaciones sobre tu proceso de traducción"

  const ChinesePromptBody := ChineseOpening + ChineseRest + "。"

  const ChineseOpening := "将以下markdown文本" + "从俄语翻译成中文。"

  const ChineseRest :=
    NewLine
    + "保留所有markdown格式、代码块和结构。" + NewLine
    + "在整个翻译过程中保持技术术语的一致性。" + NewLine
    + "不要翻译代码块中的代码片段、变量名或命令。" + NewLine + NewLine
    + "重要提示：仅返回翻译后的文本，不要添加任何解释、评论或额外信息。" + NewLine
    + "不要在回复中包含原始俄语文本。" + NewLine
    + "不要添加关于您翻译过程的解释"

  /** A triple-quoted literal: the body on its own indented lines. */
  function Framed(body: string): string {
    NewLine + body + NewLine
  }

  /** The text of the default system prompt for a language. */
  function DefaultPromptBody(lang: string): string {
    if lang == "en" then TranslationPromptBody("English")
    else if lang == "es" then SpanishPromptBody
    else if lang == "zh" then ChinesePromptBody
    else TranslationPromptBody(lang)
  }

  /** The default system prompt as written, before stripping. */
  function DefaultSystemPrompt(lang: string): string {
    Framed(DefaultPromptBody(lang))
  }

  /** `get_system_prompt`: the configured prompt unless it is missing or empty, else the
      default for the language; stripped either way. */
  function SystemPrompt(c: Settings, lang: string): (p: string)
    ensures p == Strip(p)
  {
    StripIdempotent(ChosenSystemPrompt(c, lang));
    Strip(ChosenSystemPrompt(c, lang))
  }

  function ChosenSystemPrompt(c: Settings, lang: string): string {
    var configured := LanguageSettings(c, lang).systemPrompt.GetOr("");
    if configured != "" then configured else DefaultSystemPrompt(lang)
  }

  const ValidationOpening := "Ты эксперт по валидации " + "переводов с русского на "

  const ValidationRest :=
    ".\n\nТвоя задача - найти ТОЛЬКО СЕРЬЕЗНЫЕ ошибки перевода, игнорируя стилистические вариации. \n\n"
    + "При проверке придерживайся следующих принципов:\n"
    + "1. Проверяй соответствие ТОЛЬКО терминов из глоссария - отмечай термины, которые ОДНОЗНАЧНО противоречат глоссарию.\n"
    + "2. Проверяй сохранение форматирования markdown.\n"
    + "3. Проверяй точность передачи смысла.\n"
    + "4. Проверяй сохранность кода и технических элементов.\n\n"
    + "НЕ ОТМЕЧАЙ как ошибки:\n"
    + "- Стилистические вариации перевода\n"
    + "- Правильно переведенные термины из глоссария\n"
    + "- Незначительные различия в пунктуации\n"
    + "- Разные способы выражения одной и той же мысли\n\n"
    + "Возвращай ТОЛЬКО JSON с массивом issues, где каждый элемент содержит:\n"
    + "- file_path: путь к файлу\n"
    + "- original: фрагмент из оригинала с ошибкой\n"
    + "- translated: соответствующий фрагмент в переводе\n"
    + "- reason: короткое объяснение ошибки (1 предложение)\n\n"
    + "Если ошибок нет, верни пустой массив issues: []"

  function DefaultValidationPrompt(lang: string): string {
    ValidationOpening + lang + ValidationRest + "."
  }

  function ChosenValidationPrompt(c: Settings, lang: string): string {
    var configured := LanguageSettings(c, lang).validationPrompt.GetOr("");
    if configured != "" then configured else DefaultValidationPrompt(lang)
  }

  /** `get_validation_prompt`: the same precedence as the system prompt. */
  function ValidationPrompt(c: Settings, lang: string): (p: string)
    ensures p == Strip(p)
  {
    StripIdempotent(ChosenValidationPrompt(c, lang));
    Strip(ChosenValidationPrompt(c, lang))
  }

  // ---------------------------------------------------------------- what the prompts are

  /** A text that starts and ends with a visible character is what stripping its frame leaves. */
  lemma StripFramedBody(body: string)
    requires body != [] && !IsSpace(body[0]) && !IsSpace(body[|body| - 1])
    ensures Strip(Framed(body)) == body
  {
    assert IsBlank(NewLine);
    assert Framed(body) == NewLine + (body + NewLine);
    StripBlankPrefix(NewLine, body + NewLine);
    StripFramedTail(body, NewLine);
  }

  lemma StripFramedTail(body: string, w: string)
    requires body != [] && !IsSpace(body[0]) && !IsSpace(body[|body| - 1])
    requires IsBlank(w)
    ensures Strip(body + w) == body
  {
    assert LStrip(body + w) == body + w;
    RStripBlankSuffix(body, w);
  }

  /** A configured, non-empty prompt wins, stripped. */
  lemma ConfiguredSystemPromptWins(c: Settings, lang: string)
    requires LanguageSettings(c, lang).systemPrompt.Some?
    requires LanguageSettings(c, lang).systemPrompt.value != ""
    ensures SystemPrompt(c, lang) == Strip(LanguageSettings(c, lang).systemPrompt.value)
  {
  }

  /** A text that starts and ends with a visible character is left alone by stripping. */
  lemma StripVisibleEnds(opening: string, middle: string, last: char)
    requires opening != [] && !IsSpace(opening[0]) && !IsSpace(last)
    ensures Strip(opening + middle + [last]) == opening + middle + [last]
  {
    var b := opening + middle + [last];
    assert b[0] == opening[0];
    assert b[|b| - 1] == last;
    assert LStrip(b) == b;
  }

  /** A body made of a visible opening, anything, and a visible last character. */
  lemma StripFramedParts(opening: string, middle: string, last: char)
    requires opening != [] && !IsSpace(opening[0]) && !IsSpace(last)
    ensures Strip(Framed(opening + middle + [last])) == opening + middle + [last]
  {
    var b := opening + middle + [last];
    assert b[0] == opening[0];
    assert b[|b| - 1] == last;
    StripFramedBody(b);
  }

  /** Without a configured prompt, the language's default text is used, stripped of its frame. */
  lemma DefaultSystemPromptUsed(c: Settings, lang: string)
    requires LanguageSettings(c, lang).systemPrompt.GetOr("") == ""
    ensures SystemPrompt(c, lang) == DefaultPromptBody(lang)
  {
    DefaultPromptStrips(lang);
  }

  lemma DefaultPromptStrips(lang: string)
    ensures Strip(DefaultSystemPrompt(lang)) == DefaultPromptBody(lang)
  {
    if lang == "en" {
      TranslationDefaultStrips("English");
    } else if lang == "es" {
      SpanishDefaultStrips();
    } else if lang == "zh" {
      ChineseDefaultStrips();
    } else {
      TranslationDefaultStrips(lang);
    }
  }

  lemma TranslationDefaultStrips(to: string)
    ensures Strip(Framed(TranslationPromptBody(to))) == TranslationPromptBody(to)
  {
    assert TranslateOpening[0] == 'T';
    StartOfConcat(TranslateOpening, to);
    StripFramedParts(TranslateOpening + to, TranslateRest, '.');
  }

  lemma SpanishDefaultStrips()
    ensures Strip(Framed(SpanishPromptBody)) == SpanishPromptBody
  {
    assert SpanishOpening[0] == 'T';
    StripFramedParts(SpanishOpening, SpanishRest, '.');
  }

  lemma ChineseDefaultStrips()
    ensures Strip(Framed(ChinesePromptBody)) == ChinesePromptBody
  {
    assert ChineseOpening[0] == '将';
    StripFramedParts(ChineseOpening, ChineseRest, '。');
  }

  lemma StartOfConcat(a: string, b: string)
    requires a != []
    ensures (a + b)[0] == a[0]
  {
  }

  /** The generic default names the target language. */
  lemma GenericPromptNamesLanguage(c: Settings, lang: string)
    requires LanguageSettings(c, lang).systemPrompt.GetOr("") == ""
    requires lang !in {"en", "es", "zh"}
    ensures Contains(SystemPrompt(c, lang), lang)
  {
    DefaultSystemPromptUsed(c, lang);
    ContainsSecond(TranslateOpening, lang, TranslateRest, ".");
  }

  /** Without a configured validation prompt, the default is used as written. */
  lemma DefaultValidationPromptUsed(c: Settings, lang: string)
    requires LanguageSettings(c, lang).validationPrompt.GetOr("") == ""
    ensures ValidationPrompt(c, lang) == DefaultValidationPrompt(lang)
  {
    assert ValidationOpening[0] == 'Т';
    StartOfConcat(ValidationOpening, lang);
    StripVisibleEnds(ValidationOpening + lang, ValidationRest, '.');
  }

  /** The default validation prompt names the target language. */
  lemma DefaultValidationPromptNamesLanguage(lang: string)
    ensures Contains(DefaultValidationPrompt(lang), lang)
  {
    ContainsSecond(ValidationOpening, lang, ValidationRest, ".");
  }

  /** A configured, non-empty validation prompt wins, stripped. */
  lemma ConfiguredValidationPromptWins(c: Settings, lang: string)
    requires LanguageSettings(c, lang).validationPrompt.Some?
    requires LanguageSettings(c, lang).validationPrompt.value != ""
    ensures ValidationPrompt(c, lang) == Strip(LanguageSettings(c, lang).validationPrompt.value)
  {
  }
}
