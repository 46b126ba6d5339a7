// Validation of a finished translation: the request to the validating model, the filter
// that drops incomplete or false-positive issues, the hint store fed with the survivors,
// and the aggregated report.

module Validate {
  import opened Wrappers
  import opened Strings
  import opened Config
  import opened PromptHints
  import opened Translator

  /** One entry of the reply's `issues` list. `file_path` may be absent; an absent textual
      field reads as the empty string. */
  datatype Issue = Issue(filePath: Option<string>, original: string, translated: string, reason: string)

  /** `json.loads` of the stripped reply: a dictionary (its `issues`, empty when the key is
      absent or its value is empty) or a parse error. */
  datatype Parsed = Data(issues: seq<Issue>) | Malformed

  // ---------------------------------------------------------------- the request

  const ImportantNote := "ВАЖНО: Возвращай ответ ТОЛЬКО в JSON формате с полем 'issues'. "
    + "Проверяй ТОЛЬКО на серьезные ошибки перевода. "
    + "НЕ отмечай как ошибки правильно переведенные термины из глоссария. "
    + "Если ошибок нет, верни пустой массив issues: []."

  /** `enhanced_system_prompt`, given the glossary lines. */
  function ValidationSystemPrompt(system: string, lines: string): (r: string)
    ensures StartsWith(r, system + "\n" + GlossaryHeader + lines)
    ensures EndsWith(r, "\n\n" + ImportantNote)
    ensures Contains(r, lines)
  {
    var r := system + "\n" + GlossaryHeader + lines + "\n\n" + ImportantNote;
    assert r[..|system + "\n" + GlossaryHeader + lines|] == system + "\n" + GlossaryHeader + lines;
    assert r == system + "\n" + GlossaryHeader + lines + ("\n\n" + ImportantNote);
    ContainsSelf(system + "\n" + GlossaryHeader, lines, "\n\n" + ImportantNote);
    r
  }

  const MessageIndent := "        "

  const UserOpening := "\n" + MessageIndent + "ОРИГИНАЛЬНЫЙ ТЕКСТ (русский):\n" + MessageIndent

  const UserBeforeLanguage := "\n" + MessageIndent + "\n" + MessageIndent + "ПЕРЕВЕДЕННЫЙ ТЕКСТ ("

  const UserAfterLanguage := "):\n" + MessageIndent

  const UserBeforePath := "\n" + MessageIndent + "\n" + MessageIndent
    + "Проведи анализ качества перевода и найди ТОЛЬКО РЕАЛЬНЫЕ ошибки, "
    + "игнорируя стилистические различия.\n" + MessageIndent + "\n" + MessageIndent
    + "Возвращай результат СТРОГО в следующем JSON формате:\n" + MessageIndent
    + "{\n" + MessageIndent + "  \"issues\": [\n" + MessageIndent + "    {\n" + MessageIndent
    + "      \"file_path\": \""

  const UserClosing := "\",\n" + MessageIndent
    + "      \"original\": \"проблемное место в исходном тексте (только фрагмент с ошибкой)\",\n"
    + MessageIndent
    + "      \"translated\": \"проблемное место в переводе (только фрагмент с ошибкой)\",\n"
    + MessageIndent
    + "      \"reason\": \"краткая причина проблемы (макс. 1 предложение)\"\n" + MessageIndent
    + "    }\n" + MessageIndent + "  ]\n" + MessageIndent + "}\n" + MessageIndent + "\n"
    + MessageIndent + "Если ошибок нет, верни:\n" + MessageIndent + "{\n" + MessageIndent
    + "  \"issues\": []\n" + MessageIndent + "}\n" + MessageIndent

  /** `user_message`. */
  function UserMessage(original: string, translated: string, lang: string, filePath: string): (r: string)
    ensures StartsWith(r, UserOpening + original + UserBeforeLanguage)
    ensures Contains(r, UserBeforeLanguage + lang + UserAfterLanguage + translated + UserBeforePath)
    ensures EndsWith(r, UserBeforePath + filePath + UserClosing)
  {
    MessageShape(UserOpening, original, UserBeforeLanguage, lang, UserAfterLanguage, translated,
                 UserBeforePath, filePath, UserClosing);
    UserOpening + original + UserBeforeLanguage + lang + UserAfterLanguage + translated
    + UserBeforePath + filePath + UserClosing
  }

  /** How the message is laid out, for any texts in its places. */
  lemma MessageShape(o: string, x: string, b: string, l: string, a: string, t: string, p: string,
                     f: string, c: string)
    ensures var r := o + x + b + l + a + t + p + f + c;
            StartsWith(r, o + x + b) && Contains(r, b + l + a + t + p) && EndsWith(r, p + f + c)
  {
    var r := o + x + b + l + a + t + p + f + c;
    assert r == o + x + (b + l + a + t + p) + (f + c);
    Enclosed(o + x, b + l + a + t + p, f + c);
    assert r == o + x + b + (l + a + t) + (p + f + c);
    Enclosed(o + x + b, l + a + t, p + f + c);
  }

  // ---------------------------------------------------------------- the filter

  const GlossaryWord := "глоссари"
  const DictionaryWord := "словар"
  const TermWord := "термин"

  /** The (lower-cased) reason blames a glossary, a dictionary or a term. */
  predicate CitesGlossary(reason: string) {
    Contains(reason, GlossaryWord) || Contains(reason, DictionaryWord) || Contains(reason, TermWord)
  }

  /** Entry `e` shows the issue to be a false positive: its term occurs in the original, its
      translation into `lang` occurs in the translation, and the reason cites the glossary.
      All three texts are already lower-cased. */
  predicate Flags(e: TermEntry, lang: string, original: string, translated: string, reason: string) {
    Contains(original, Lower(e.term)) && HasTranslation(e, lang)
    && Contains(translated, Lower(TranslationOf(e, lang))) && CitesGlossary(reason)
  }

  /** Some of the first `n` entries flag the issue. */
  predicate FlaggedBefore(g: Glossary, n: nat, lang: string, original: string, translated: string, reason: string)
    requires n <= |g|
  {
    n > 0 && (FlaggedBefore(g, n - 1, lang, original, translated, reason) || Flags(g[n - 1], lang, original, translated, reason))
  }

  lemma {:induction false} FlaggedBeforeIff(g: Glossary, n: nat, lang: string, original: string, translated: string, reason: string)
    requires n <= |g|
    ensures FlaggedBefore(g, n, lang, original, translated, reason)
            <==> exists k :: 0 <= k < n && Flags(g[k], lang, original, translated, reason)
  {
    if n > 0 {
      FlaggedBeforeIff(g, n - 1, lang, original, translated, reason);
      if Flags(g[n - 1], lang, original, translated, reason) {
        assert 0 <= n - 1 < n;
      }
    }
  }

  /** The issue is dropped: a glossary entry flags it, or it is incomplete or too short. */
  predicate Dropped(g: Glossary, lang: string, x: Issue) {
    var original, translated, reason := Lower(x.original), Lower(x.translated), Lower(x.reason);
    FlaggedBefore(g, |g|, lang, original, translated, reason)
    || original == [] || translated == [] || reason == [] || |original| < 3 || |translated| < 3
  }

  /** Lower-casing keeps lengths, so the size rules read the same on the issue as written. */
  lemma DroppedIff(g: Glossary, lang: string, x: Issue)
    ensures Dropped(g, lang, x) <==>
      (exists k :: 0 <= k < |g| && Flags(g[k], lang, Lower(x.original), Lower(x.translated), Lower(x.reason)))
      || |x.original| < 3 || |x.translated| < 3 || x.reason == []
  {
    FlaggedBeforeIff(g, |g|, lang, Lower(x.original), Lower(x.translated), Lower(x.reason));
  }

  function Stamped(x: Issue, filePath: string): Issue {
    x.(filePath := Some(filePath))
  }

  /** `filtered_issues`: the issues that are not dropped, in order, with `file_path` set. */
  function Survivors(g: Glossary, lang: string, filePath: string, xs: seq<Issue>): seq<Issue>
    decreases |xs|
  {
    if xs == [] then []
    else
      var x := xs[|xs| - 1];
      Survivors(g, lang, filePath, xs[..|xs| - 1]) + (if Dropped(g, lang, x) then [] else [Stamped(x, filePath)])
  }

  /** Filtering distributes over concatenation, so the survivors keep their relative order. */
  lemma {:induction false} SurvivorsAppend(g: Glossary, lang: string, filePath: string, a: seq<Issue>, b: seq<Issue>)
    ensures Survivors(g, lang, filePath, a + b) == Survivors(g, lang, filePath, a) + Survivors(g, lang, filePath, b)
    decreases |b|
  {
    if b != [] {
      var c := b[..|b| - 1];
      assert (a + b)[..|a + b| - 1] == a + c;
      assert (a + b)[|a + b| - 1] == b[|b| - 1];
      SurvivorsAppend(g, lang, filePath, a, c);
    } else {
      assert a + b == a;
    }
  }

  /** A filter result holds the stamped issues that the filter keeps, and exactly those. */
  lemma {:induction false} SurvivorsExactly(g: Glossary, lang: string, filePath: string, xs: seq<Issue>, y: Issue)
    ensures y in Survivors(g, lang, filePath, xs) <==>
      exists i :: 0 <= i < |xs| && !Dropped(g, lang, xs[i]) && y == Stamped(xs[i], filePath)
    decreases |xs|
  {
    if xs != [] {
      var front := xs[..|xs| - 1];
      SurvivorsExactly(g, lang, filePath, front, y);
      if exists i :: 0 <= i < |xs| && !Dropped(g, lang, xs[i]) && y == Stamped(xs[i], filePath) {
        var i :| 0 <= i < |xs| && !Dropped(g, lang, xs[i]) && y == Stamped(xs[i], filePath);
        if i < |xs| - 1 {
          assert front[i] == xs[i];
        }
      }
      if y in Survivors(g, lang, filePath, front) {
        var i :| 0 <= i < |front| && !Dropped(g, lang, front[i]) && y == Stamped(front[i], filePath);
        assert xs[i] == front[i];
      }
    }
  }

  /** Every survivor carries the file path and would survive the filter again. */
  lemma {:induction false} SurvivorsStamped(g: Glossary, lang: string, filePath: string, xs: seq<Issue>)
    ensures forall i :: 0 <= i < |Survivors(g, lang, filePath, xs)| ==>
      Survivors(g, lang, filePath, xs)[i].filePath == Some(filePath) && !Dropped(g, lang, Survivors(g, lang, filePath, xs)[i])
    decreases |xs|
  {
    if xs != [] {
      SurvivorsStamped(g, lang, filePath, xs[..|xs| - 1]);
    }
  }

  /** Filtering an already filtered list changes nothing. */
  lemma {:induction false} SurvivorsIdempotent(g: Glossary, lang: string, filePath: string, xs: seq<Issue>)
    ensures Survivors(g, lang, filePath, Survivors(g, lang, filePath, xs)) == Survivors(g, lang, filePath, xs)
    decreases |xs|
  {
    if xs != [] {
      var front := xs[..|xs| - 1];
      var x := xs[|xs| - 1];
      var tail := if Dropped(g, lang, x) then [] else [Stamped(x, filePath)];
      SurvivorsIdempotent(g, lang, filePath, front);
      SurvivorsAppend(g, lang, filePath, Survivors(g, lang, filePath, front), tail);
      if !Dropped(g, lang, x) {
        assert Survivors(g, lang, filePath, tail) == Survivors(g, lang, filePath, []) + [Stamped(x, filePath)] by {
          assert tail[..0] == [];
        }
      }
    }
  }

  // ---------------------------------------------------------------- the hint store

  function AsImprovement(x: Issue): Improvement {
    Improvement(x.original, x.translated, x.reason)
  }

  /** The hint file after `save_prompt_improvement` of each of `xs`, in order. */
  function SaveAll(file: HintFile, xs: seq<Issue>): HintFile
    decreases |xs|
  {
    if xs == [] then file else Saved(SaveAll(file, xs[..|xs| - 1]), AsImprovement(xs[|xs| - 1]))
  }

  /** Saving the survivors never alters or removes an entry the file already held. */
  lemma {:induction false} SaveAllKeepsExisting(file: HintFile, xs: seq<Issue>)
    requires file.Hints?
    ensures SaveAll(file, xs).Hints? && file.items <= SaveAll(file, xs).items
    decreases |xs|
  {
    if xs != [] {
      var before := SaveAll(file, xs[..|xs| - 1]);
      SaveAllKeepsExisting(file, xs[..|xs| - 1]);
      SavedAppendsOrKeeps(before, AsImprovement(xs[|xs| - 1]));
    }
  }

  // ---------------------------------------------------------------- the whole call

  /** The request `validate_translation` sends, given the glossary lines. */
  function ValidationRequest(model: string, system: string, lines: string, original: string,
                             translated: string, lang: string, filePath: string): Request {
    Request(model, ValidationSystemPrompt(system, lines), UserMessage(original, translated, lang, filePath))
  }

  /** The issues of the parsed reply, or `None` when the call failed, the reply has no
      content (stripping a missing content raises) or the content is not JSON. */
  function ReplyIssues(reply: Reply, parse: string -> Parsed): Option<seq<Issue>> {
    if reply.ServiceError? || reply.content.None? then None
    else match parse(Strip(reply.content.value))
      case Malformed => None
      case Data(issues) => Some(issues)
  }

  /** The tokens the counter gains: those the reply reports, none when the call failed. */
  function ReplyTokens(reply: Reply): nat {
    if reply.ServiceError? then 0 else reply.promptTokens + reply.completionTokens
  }

  /** What `validate_translation` returns (`None` when an exception escapes it) and how many
      tokens it adds to the global counter. */
  function ValidateSpec(client: Request -> Reply, model: string, system: string, g: Glossary,
                        original: string, translated: string, lang: string, filePath: string,
                        parse: string -> Parsed): (Option<seq<Issue>>, nat)
  {
    if !Loadable(g) then (None, 0)
    else
      var reply := client(ValidationRequest(model, system, GlossaryLines(g, lang, |g|), original, translated, lang, filePath));
      var raw := ReplyIssues(reply, parse);
      (Some(if raw.None? then [] else Survivors(g, lang, filePath, raw.value)), ReplyTokens(reply))
  }

  /** A failed service call or an unreadable reply yields no issues; only a null glossary
      value lets an exception escape. */
  lemma ValidateFallbacks(client: Request -> Reply, model: string, system: string, g: Glossary,
                          original: string, translated: string, lang: string, filePath: string,
                          parse: string -> Parsed)
    ensures var r := ValidateSpec(client, model, system, g, original, translated, lang, filePath, parse);
      (r.0.None? <==> !Loadable(g))
      && (Loadable(g) && client(ValidationRequest(model, system, GlossaryLines(g, lang, |g|), original,
                                                  translated, lang, filePath)).ServiceError?
          ==> r.0 == Some([]) && r.1 == 0)
  {
  }

  /** The reported issues are the stamped survivors of the reply's issues. */
  lemma ValidateReportsSurvivors(client: Request -> Reply, model: string, system: string, g: Glossary,
                                 original: string, translated: string, lang: string, filePath: string,
                                 parse: string -> Parsed, y: Issue)
    requires ValidateSpec(client, model, system, g, original, translated, lang, filePath, parse).0.Some?
    ensures var issues := ValidateSpec(client, model, system, g, original, translated, lang, filePath, parse).0.value;
      y in issues ==> y.filePath == Some(filePath) && !Dropped(g, lang, y)
  {
    var r := ValidateSpec(client, model, system, g, original, translated, lang, filePath, parse).0.value;
    if y in r {
      var reply := client(ValidationRequest(model, system, GlossaryLines(g, lang, |g|), original,
                                            translated, lang, filePath));
      var raw := ReplyIssues(reply, parse);
      if raw.Some? {
        SurvivorsStamped(g, lang, filePath, raw.value);
      }
      var i :| 0 <= i < |r| && r[i] == y;
    }
  }

  /** The module's global `total_tokens_used`. */
  class TokenCounter {
    var totalTokensUsed: nat

    constructor ()
      ensures totalTokensUsed == 0
    {
      totalTokensUsed := 0;
    }
  }

  /** `validate_translation`. */
  method ValidateTranslation(counter: TokenCounter, store: HintStore, client: Request -> Reply, model: string,
                             c: Settings, g: Glossary, original: string, translated: string,
                             lang: string, filePath: string, parse: string -> Parsed)
    returns (r: Option<seq<Issue>>)
    modifies counter, store
    ensures var v := ValidateSpec(client, model, ValidationPrompt(c, lang), g, original, translated, lang, filePath, parse);
      r == v.0 && counter.totalTokensUsed == old(counter.totalTokensUsed) + v.1
    ensures store.File(lang) == (if r.Some? then SaveAll(old(store.File(lang)), r.value) else old(store.File(lang)))
    ensures forall l :: l != lang ==> store.File(l) == old(store.File(l))
  {
    var system := ValidationPrompt(c, lang);
    r := ValidateWith(counter, store, client, model, system, g, original, translated, lang, filePath, parse);
  }

  /** `validate_translation` once the validation prompt `system` is chosen. */
  method ValidateWith(counter: TokenCounter, store: HintStore, client: Request -> Reply, model: string,
                      system: string, g: Glossary, original: string, translated: string,
                             lang: string, filePath: string, parse: string -> Parsed)
    returns (r: Option<seq<Issue>>)
    modifies counter, store
    ensures var v := ValidateSpec(client, model, system, g, original, translated, lang, filePath, parse);
      r == v.0 && counter.totalTokensUsed == old(counter.totalTokensUsed) + v.1
    ensures store.File(lang) == (if r.Some? then SaveAll(old(store.File(lang)), r.value) else old(store.File(lang)))
    ensures forall l :: l != lang ==> store.File(l) == old(store.File(l))
  {
    var lines := ListGlossary(g, lang);
    if lines.None? {
      return None;
    }
    var reply := client(ValidationRequest(model, system, lines.value, original, translated, lang, filePath));
    var issues, used := Interpret(reply, parse);
    counter.totalTokensUsed := counter.totalTokensUsed + used;
    if issues.None? {
      return Some([]);
    }
    var kept := FilterIssues(store, g, lang, filePath, issues.value);
    return Some(kept);
  }

  /** The tokens a reply reports and the issues of its parsed content, if it has any. */
  method Interpret(reply: Reply, parse: string -> Parsed) returns (issues: Option<seq<Issue>>, used: nat)
    ensures issues == ReplyIssues(reply, parse) && used == ReplyTokens(reply)
  {
    if reply.ServiceError? {
      return None, 0;
    }
    used := reply.promptTokens + reply.completionTokens;
    if reply.content.None? {
      return None, used;
    }
    var parsed := parse(Strip(reply.content.value));
    if parsed.Malformed? {
      return None, used;
    }
    return Some(parsed.issues), used;
  }

  /** The loop over the reply's issues: keep, stamp and save each one that is not dropped. */
  method FilterIssues(store: HintStore, g: Glossary, lang: string, filePath: string, xs: seq<Issue>)
    returns (kept: seq<Issue>)
    modifies store
    ensures kept == Survivors(g, lang, filePath, xs)
    ensures store.File(lang) == SaveAll(old(store.File(lang)), kept)
    ensures forall l :: l != lang ==> store.File(l) == old(store.File(l))
  {
    kept := [];
    var i := 0;
    while i < |xs|
      invariant 0 <= i <= |xs|
      invariant kept == Survivors(g, lang, filePath, xs[..i])
      invariant store.File(lang) == SaveAll(old(store.File(lang)), kept)
      invariant forall l :: l != lang ==> store.File(l) == old(store.File(l))
    {
      kept := IssueTurn(store, g, lang, filePath, xs, i, kept, old(store.File(lang)));
      i := i + 1;
    }
    assert xs[..|xs|] == xs;
  }

  lemma SurvivorsStep(g: Glossary, lang: string, filePath: string, xs: seq<Issue>, i: nat)
    requires i < |xs|
    ensures Survivors(g, lang, filePath, xs[..i + 1])
         == Survivors(g, lang, filePath, xs[..i]) + (if Dropped(g, lang, xs[i]) then [] else [Stamped(xs[i], filePath)])
  {
    assert xs[..i + 1][..i] == xs[..i];
  }

  lemma SaveAllStep(file: HintFile, kept: seq<Issue>, x: Issue)
    ensures SaveAll(file, kept + [x]) == Saved(SaveAll(file, kept), AsImprovement(x))
  {
    assert (kept + [x])[..|kept|] == kept;
  }

  /** One turn of the loop over the issues: the `i`-th issue. */
  method IssueTurn(store: HintStore, g: Glossary, lang: string, filePath: string, xs: seq<Issue>, i: nat,
                   kept: seq<Issue>, ghost initial: HintFile)
    returns (r: seq<Issue>)
    modifies store
    requires i < |xs| && kept == Survivors(g, lang, filePath, xs[..i])
    requires store.File(lang) == SaveAll(initial, kept)
    ensures r == Survivors(g, lang, filePath, xs[..i + 1])
    ensures store.File(lang) == SaveAll(initial, r)
    ensures forall l :: l != lang ==> store.File(l) == old(store.File(l))
  {
    SurvivorsStep(g, lang, filePath, xs, i);
    var drop := IsDropped(g, lang, xs[i]);
    if drop {
      return kept;
    }
    r := kept + [Stamped(xs[i], filePath)];
    SaveIssue(store, lang, initial, kept, Stamped(xs[i], filePath));
  }

  /** `save_prompt_improvement(target_language, issue)` for a survivor. */
  method SaveIssue(store: HintStore, lang: string, ghost initial: HintFile, kept: seq<Issue>, x: Issue)
    modifies store
    requires store.File(lang) == SaveAll(initial, kept)
    ensures store.File(lang) == SaveAll(initial, kept + [x])
    ensures forall l :: l != lang ==> store.File(l) == old(store.File(l))
  {
    SaveAllStep(initial, kept, x);
    store.Save(lang, AsImprovement(x));
  }

  /** The checks of one issue: the glossary loop, then the size rules. */
  method IsDropped(g: Glossary, lang: string, x: Issue) returns (drop: bool)
    ensures drop == Dropped(g, lang, x)
  {
    var original, translated, reason := Lower(x.original), Lower(x.translated), Lower(x.reason);
    drop := IsFalsePositive(g, lang, original, translated, reason);
    if original == [] || translated == [] || reason == [] || |original| < 3 || |translated| < 3 {
      drop := true;
    }
  }

  /** The glossary loop, which stops at the first entry that flags the issue. */
  method IsFalsePositive(g: Glossary, lang: string, original: string, translated: string, reason: string)
    returns (flagged: bool)
    ensures flagged == FlaggedBefore(g, |g|, lang, original, translated, reason)
  {
    var i := 0;
    while i < |g|
      invariant 0 <= i <= |g|
      invariant !FlaggedBefore(g, i, lang, original, translated, reason)
    {
      if Flags(g[i], lang, original, translated, reason) {
        FlaggedPersists(g, i + 1, lang, original, translated, reason);
        return true;
      }
      i := i + 1;
    }
    return false;
  }

  lemma {:induction false} FlaggedPersists(g: Glossary, n: nat, lang: string, original: string, translated: string, reason: string)
    requires n <= |g| && FlaggedBefore(g, n, lang, original, translated, reason)
    ensures FlaggedBefore(g, |g|, lang, original, translated, reason)
    decreases |g| - n
  {
    if n < |g| {
      FlaggedPersists(g, n + 1, lang, original, translated, reason);
    }
  }

  /** `validate_file`: `None` when either file is missing or an exception escapes. The file
      contents are parameters, `None` for a file that does not exist. */
  method ValidateFile(counter: TokenCounter, store: HintStore, client: Request -> Reply, model: string,
                      c: Settings, g: Glossary, original: Option<string>, translated: Option<string>,
                      lang: string, relPath: string, parse: string -> Parsed)
    returns (r: Option<seq<Issue>>)
    modifies counter, store
    ensures original.None? || translated.None? ==>
      r.None? && counter.totalTokensUsed == old(counter.totalTokensUsed) && store.files == old(store.files)
    ensures original.Some? && translated.Some? ==>
      var v := ValidateSpec(client, model, ValidationPrompt(c, lang), g, original.value, translated.value, lang, relPath, parse);
      r == v.0 && counter.totalTokensUsed == old(counter.totalTokensUsed) + v.1
    ensures store.File(lang) == (if r.Some? then SaveAll(old(store.File(lang)), r.value) else old(store.File(lang)))
    ensures forall l :: l != lang ==> store.File(l) == old(store.File(l))
  {
    if original.None? || translated.None? {
      return None;
    }
    r := ValidateTranslation(counter, store, client, model, c, g, original.value, translated.value,
                             lang, relPath, parse);
  }

  // ---------------------------------------------------------------- the report

  datatype Report = Report(language: string, totalFiles: nat, totalIssues: nat, issues: seq<Issue>)

  /** `all_issues`: the issues of every result present, in order. */
  function Gathered(results: seq<Option<seq<Issue>>>): seq<Issue>
    decreases |results|
  {
    if results == [] then []
    else
      var last := results[|results| - 1];
      Gathered(results[..|results| - 1]) + (if last.Some? then last.value else [])
  }

  /** An issue is reported exactly when some present result holds it. */
  lemma {:induction false} GatheredExactly(results: seq<Option<seq<Issue>>>, y: Issue)
    ensures y in Gathered(results) <==> exists i :: 0 <= i < |results| && results[i].Some? && y in results[i].value
    decreases |results|
  {
    if results != [] {
      var front := results[..|results| - 1];
      GatheredExactly(front, y);
      if exists i :: 0 <= i < |results| && results[i].Some? && y in results[i].value {
        var i :| 0 <= i < |results| && results[i].Some? && y in results[i].value;
        if i < |results| - 1 {
          assert front[i] == results[i];
        }
      }
      if y in Gathered(front) {
        var i :| 0 <= i < |front| && front[i].Some? && y in front[i].value;
        assert results[i] == front[i];
      }
    }
  }

  /** Gathering distributes over concatenation of the result lists. */
  lemma {:induction false} GatheredAppend(a: seq<Option<seq<Issue>>>, b: seq<Option<seq<Issue>>>)
    ensures Gathered(a + b) == Gathered(a) + Gathered(b)
    decreases |b|
  {
    if b != [] {
      var c := b[..|b| - 1];
      assert (a + b)[..|a + b| - 1] == a + c;
      assert (a + b)[|a + b| - 1] == b[|b| - 1];
      GatheredAppend(a, c);
    } else {
      assert a + b == a;
    }
  }

  /** The report file: the given name unless it is absent or empty. */
  function ReportFileName(lang: string, reportFile: Option<string>): (name: string)
    ensures reportFile.Some? && reportFile.value != "" ==> name == reportFile.value
    ensures reportFile.None? || reportFile.value == "" ==> name == "validation_report_" + lang + ".json"
  {
    if reportFile.Some? && reportFile.value != "" then reportFile.value else "validation_report_" + lang + ".json"
  }

  /** `create_validation_report`, without writing the file or logging the first issues. */
  method CreateValidationReport(results: seq<Option<seq<Issue>>>, lang: string, reportFile: Option<string>)
    returns (report: Report, fileName: string)
    ensures report.issues == Gathered(results)
    ensures report.language == lang && report.totalFiles == |results| && report.totalIssues == |report.issues|
    ensures fileName == ReportFileName(lang, reportFile)
  {
    var all: seq<Issue> := [];
    var i := 0;
    while i < |results|
      invariant 0 <= i <= |results|
      invariant all == Gathered(results[..i])
    {
      assert results[..i + 1][..i] == results[..i];
      if results[i].Some? {
        all := all + results[i].value;
      }
      i := i + 1;
    }
    assert results[..|results|] == results;
    report := Report(lang, |results|, |all|, all);
    fileName := ReportFileName(lang, reportFile);
  }
}
