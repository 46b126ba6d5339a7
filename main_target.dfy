// The script that translates the documents changed in the book's git repository:
// each changed file of the Russian directory is translated (Markdown) or copied (anything
// else) into the directory of each target language.

module MainTarget {
  import opened Wrappers
  import opened Strings
  import opened Config
  import opened FileUtils
  import opened PromptHints
  import opened Translator
  import opened FrontmatterTranslation
  import opened Pipeline

  // ---------------------------------------------------------------- languages and paths

  /** The directory of each language, relative to the root of the book's repository. */
  const LangDirs: map<string, string> := map[
    "ru" := "i18n/ru/docusaurus-plugin-content-docs/current",
    "en" := "docs",
    "es" := "i18n/es/docusaurus-plugin-content-docs/current",
    "zh" := "i18n/zh/docusaurus-plugin-content-docs/current"
  ]

  const SourceLanguage := "ru"

  /** Every target language has a directory, and none is the source language. */
  lemma TargetsHaveDirectories(arg: string)
    requires LanguageChoice(arg)
    ensures forall k :: 0 <= k < |TargetLanguages(arg)| ==>
              TargetLanguages(arg)[k] in LangDirs && TargetLanguages(arg)[k] != SourceLanguage
  {
  }

  /** Where the file `relPath` of the Russian directory goes for language `lang`. */
  function OutputPath(bookRepo: string, lang: string, relPath: string): (r: string)
    requires lang in LangDirs
    ensures !StartsWith(relPath, "/") ==> EndsWith(r, relPath)
  {
    JoinPath(JoinPath(bookRepo, LangDirs[lang]), relPath)
  }

  /** A file is translated when its name ends with `.md` or `.mdx`, in any case, and it
      does not look binary; every other file is copied. */
  predicate ShouldTranslate(path: string, binary: bool) {
    (EndsWith(Lower(path), ".md") || EndsWith(Lower(path), ".mdx")) && !binary
  }

  lemma LowerCharIdempotent(c: char)
    ensures LowerChar(LowerChar(c)) == LowerChar(c)
  {
  }

  /** The decision does not depend on the case of the name. */
  lemma ShouldTranslateIgnoresCase(path: string, binary: bool)
    ensures ShouldTranslate(Lower(path), binary) == ShouldTranslate(path, binary)
  {
    forall i | 0 <= i < |path|
      ensures Lower(Lower(path))[i] == Lower(path)[i]
    {
      LowerCharIdempotent(path[i]);
    }
    assert Lower(Lower(path)) == Lower(path);
  }

  /** A text file named with an upper-case `.MD` is translated. */
  lemma UpperCaseExtensionTranslated(stem: string)
    ensures ShouldTranslate(stem + ".MD", false)
  {
    var p := stem + ".MD";
    var l := Lower(p);
    assert l[|l| - 3..] == ".md" by {
      assert l[|l| - 3] == LowerChar(p[|p| - 3]);
      assert l[|l| - 2] == LowerChar(p[|p| - 2]);
      assert l[|l| - 1] == LowerChar(p[|p| - 1]);
    }
  }

  /** A file that looks binary is copied whatever its name. */
  lemma BinaryCopied(path: string)
    ensures !ShouldTranslate(path, true)
  {
  }

  // ---------------------------------------------------------------- placeholders for failed parts

  const FailurePrefix := "[ОШИБКА ПЕРЕВОДА ЧАСТИ "

  /** The text put in place of part `k` (counted from 0) when its translation raised `error`. */
  function PartFailure(k: nat, error: string): string {
    FailurePrefix + Decimal(k + 1) + ": " + error + "]"
  }

  /** The placeholder names the part, counted from 1, in decimal digits. */
  lemma PartFailureNamesPart(k: nat, error: string)
    ensures var d := Decimal(k + 1);
            StartsWith(PartFailure(k, error), FailurePrefix + d + ": ")
            && AllDigits(d) && DigitsValue(d) == k + 1
  {
    DecimalRoundTrip(k + 1);
    var d := Decimal(k + 1);
    assert PartFailure(k, error) == (FailurePrefix + d + ": ") + (error + "]");
  }

  /** What stands in the document for part `k`: its translation, or the placeholder. */
  function Piece(k: nat, o: Outcome, error: string): string {
    match o
    case Returned(text) => text
    case Raised => PartFailure(k, error)
  }

  /** The pieces of a document, given the outcomes of its parts in order. */
  function Marked(outcomes: seq<Outcome>, error: string): (r: seq<string>)
    ensures |r| == |outcomes|
    ensures forall k :: 0 <= k < |r| ==> r[k] == Piece(k, outcomes[k], error)
  {
    if outcomes == [] then []
    else Marked(outcomes[..|outcomes| - 1], error) + [Piece(|outcomes| - 1, outcomes[|outcomes| - 1], error)]
  }

  /** One more outcome adds one more piece. */
  lemma MarkedSnoc(outcomes: seq<Outcome>, o: Outcome, error: string)
    ensures Marked(outcomes + [o], error) == Marked(outcomes, error) + [Piece(|outcomes|, o, error)]
  {
    assert (outcomes + [o])[..|outcomes|] == outcomes;
  }

  /** With a glossary whose every term has a mapping each piece is the translation of its
      part; otherwise every piece is a placeholder and no service tokens are counted. */
  lemma {:induction false} PlaceholdersIffNullTerm(client: Request -> Reply, model: string, g: Glossary, lang: string,
                                                   system: string, hints: string, parts: seq<string>, error: string)
    ensures var run := PartsFold(Part(client, model, g, lang, system, hints), parts, FreshSnapshot, |parts|);
            var pieces := Marked(run.0, error);
            (Loadable(g) ==> forall k :: 0 <= k < |parts| ==> run.0[k].Returned? && pieces[k] == run.0[k].text)
            && (!Loadable(g) ==> (forall k :: 0 <= k < |parts| ==> pieces[k] == PartFailure(k, error)) && run.2 == 0)
  {
    PartsRaiseIffNullTerm(client, model, g, lang, system, hints, parts, FreshSnapshot, |parts|);
  }

  // ---------------------------------------------------------------- one document

  /** The body split into parts and each part translated in order with one fresh context. */
  function BodyRun(tr: PartTranslator, body: string, maxTokens: int): (seq<Outcome>, Snapshot, nat) {
    var parts := SplitContentSpec(body, maxTokens);
    PartsFold(tr, parts, FreshSnapshot, |parts|)
  }

  /** The document written for a Markdown source `content`, and the tokens counted on the
      way: local-text regions removed, the frontmatter and the body translated, and the
      document assembled from the frontmatter and the pieces. */
  function DocumentSpec(field: FieldTranslator, tr: PartTranslator, parse: string -> Parsed,
                        dump: YamlEntries -> string, content: string, maxTokens: int, error: string): (string, nat)
  {
    var ex := ExtractFrontmatter(DropLocalText(content));
    var front := FrontOf(field, parse, dump, ex);
    var run := BodyRun(tr, ex.body, maxTokens);
    (Assemble(ex.hasFrontmatter, front.0, Marked(run.0, error)), front.1 + run.2)
  }

  /** A document without frontmatter that fits in one part is written as its single piece,
      with only that part's translation counted. */
  lemma SmallDocument(field: FieldTranslator, tr: PartTranslator, parse: string -> Parsed,
                      dump: YamlEntries -> string, content: string, maxTokens: int, error: string)
    requires !ExtractFrontmatter(DropLocalText(content)).hasFrontmatter
    requires |DropLocalText(content)| <= 4 * maxTokens
    ensures var step := tr(DropLocalText(content), FreshSnapshot);
            DocumentSpec(field, tr, parse, dump, content, maxTokens, error) == (Piece(0, step.0, error), step.2)
  {
    var body := DropLocalText(content);
    assert SplitContentSpec(body, maxTokens) == [body];
    assert PartsFold(tr, [body], FreshSnapshot, 1).0 == [tr(body, FreshSnapshot).0];
    assert Join([Piece(0, tr(body, FreshSnapshot).0, error)], PartSeparator) == Piece(0, tr(body, FreshSnapshot).0, error);
  }

  /** The translation of a whole Markdown source: the document and the tokens counted. */
  type DocumentTranslator = string -> (string, nat)

  /** `DocumentSpec` with everything but the source fixed. */
  function Document(field: FieldTranslator, tr: PartTranslator, parse: string -> Parsed, dump: YamlEntries -> string,
                    maxTokens: int, error: string): DocumentTranslator {
    content => DocumentSpec(field, tr, parse, dump, content, maxTokens, error)
  }

  /** `process_changed_file`, with `document` the translation of a readable Markdown source:
      whether it succeeded, what it did, and the tokens counted. */
  function Processed(document: DocumentTranslator, lang: string, ruFilePath: string, relPath: string,
                     bookRepo: string, file: SourceFile): (bool, Action, nat)
  {
    if lang !in LangDirs then (false, Skip, 0)
    else if !ShouldTranslate(ruFilePath, file.binary) then
      if file.writable then (true, Copy(ruFilePath, OutputPath(bookRepo, lang, relPath)), 0) else (false, Skip, 0)
    else if file.content.None? then (false, Skip, 0)
    else
      var d := document(file.content.value);
      if file.writable then (true, Write(OutputPath(bookRepo, lang, relPath), d.0), d.1) else (false, Skip, d.1)
  }

  /** A file fails exactly when the language has no directory, its target cannot be written,
      or it is to be translated and cannot be read; a failed file changes nothing. */
  lemma ProcessedFailsIff(document: DocumentTranslator, lang: string, ruFilePath: string, relPath: string,
                          bookRepo: string, file: SourceFile)
    ensures var r := Processed(document, lang, ruFilePath, relPath, bookRepo, file);
            (!r.0 <==> lang !in LangDirs || !file.writable
                       || (ShouldTranslate(ruFilePath, file.binary) && file.content.None?))
            && (!r.0 ==> r.1 == Skip)
            && (r.0 ==> r.1 != Skip && (r.1.Copy? <==> !ShouldTranslate(ruFilePath, file.binary)))
  {
  }

  /** Copying asks nothing of the service, and what gets written lands under the language's
      directory at the file's relative path. */
  lemma ProcessedTargets(document: DocumentTranslator, lang: string, ruFilePath: string, relPath: string,
                         bookRepo: string, file: SourceFile)
    requires !StartsWith(relPath, "/")
    ensures var r := Processed(document, lang, ruFilePath, relPath, bookRepo, file);
            (r.1.Copy? ==> r.2 == 0 && r.1.source == ruFilePath && EndsWith(r.1.target, relPath))
            && (r.1.Write? ==> EndsWith(r.1.target, relPath))
  {
  }

  /** The loop over the parts of one document: a fresh context, every part translated with
      it, and the placeholder where a part raised. */
  method TranslateParts(translator: Translator, parts: seq<string>, lang: string, system: string,
                        store: HintStore, error: string) returns (pieces: seq<string>)
    modifies translator
    ensures var run := PartsFold(Part(translator.client, translator.modelName, translator.glossary, lang, system,
                                      HintText(store.File(lang))), parts, FreshSnapshot, |parts|);
            pieces == Marked(run.0, error)
            && translator.totalTokensProcessed == old(translator.totalTokensProcessed) + run.2
  {
    hide Part;
    hide PartsFold;
    hide TranslateSpec;
    hide HintText;
    hide Marked;
    hide Piece;
    ghost var hints := HintText(store.File(lang));
    ghost var tr := Part(translator.client, translator.modelName, translator.glossary, lang, system, hints);
    var context := new Context();
    PartsFoldNone(tr, parts, FreshSnapshot);
    ghost var outcomes: seq<Outcome> := [];
    ghost var counted: nat := 0;
    pieces := [];
    var i := 0;
    while i < |parts|
      invariant 0 <= i <= |parts|
      invariant outcomes == PartsFold(tr, parts, FreshSnapshot, i).0
      invariant context.State() == PartsFold(tr, parts, FreshSnapshot, i).1
      invariant counted == PartsFold(tr, parts, FreshSnapshot, i).2
      invariant translator.totalTokensProcessed == old(translator.totalTokensProcessed) + counted
      invariant pieces == Marked(outcomes, error)
    {
      ghost var s := context.State();
      var outcome, ctx := translator.TranslateText(parts[i], lang, system, context, store);
      PartApplied(translator.client, translator.modelName, translator.glossary, lang, system, hints, parts[i], s);
      PartsFoldNext(tr, parts, FreshSnapshot, i);
      MarkedSnoc(outcomes, outcome, error);
      pieces := pieces + [Piece(i, outcome, error)];
      outcomes := outcomes + [outcome];
      counted := counted + TranslateSpec(translator.client, translator.modelName, translator.glossary, parts[i], lang,
                                         system, hints, s).2;
      i := i + 1;
    }
  }

  /** The document translator of the scripts: fields with the frontmatter prompt, parts with
      the language's system prompt, both with the language's hints. */
  function ScriptDocument(client: Request -> Reply, model: string, g: Glossary, lang: string, system: string,
                          hints: string, parse: string -> Parsed, dump: YamlEntries -> string,
                          maxTokens: int, error: string): DocumentTranslator
  {
    Document(Field(client, model, g, lang, FieldPrompt(lang), hints), Part(client, model, g, lang, system, hints),
             parse, dump, maxTokens, error)
  }

  /** The body step of `process_changed_file`: split, then translate the parts. */
  method TranslateBody(translator: Translator, body: string, lang: string, system: string, maxTokens: int,
                       store: HintStore, error: string) returns (pieces: seq<string>)
    modifies translator
    ensures var run := BodyRun(Part(translator.client, translator.modelName, translator.glossary, lang, system,
                                    HintText(store.File(lang))), body, maxTokens);
            pieces == Marked(run.0, error)
            && translator.totalTokensProcessed == old(translator.totalTokensProcessed) + run.2
  {
    hide PartsFold;
    hide Part;
    hide Marked;
    hide HintText;
    hide SplitContentSpec;
    hide TranslateSpec;
    var parts := SplitContent(body, maxTokens);
    pieces := TranslateParts(translator, parts, lang, system, store, error);
  }

  /** The translation of a readable Markdown file, from removing the local text to
      assembling the document. */
  method TranslateDocument(translator: Translator, content: string, lang: string, system: string, maxTokens: int,
                           store: HintStore, error: string, parse: string -> Parsed, dump: YamlEntries -> string)
    returns (doc: string)
    modifies translator
    ensures var d := ScriptDocument(translator.client, translator.modelName, translator.glossary, lang, system,
                                    HintText(store.File(lang)), parse, dump, maxTokens, error)(content);
            doc == d.0 && translator.totalTokensProcessed == old(translator.totalTokensProcessed) + d.1
  {
    hide FrontOf;
    hide BodyRun;
    hide Field;
    hide Part;
    hide FieldPrompt;
    hide HintText;
    hide Marked;
    hide ExtractFrontmatter;
    hide DropLocalText;
    hide Assemble;
    var ex := ExtractFrontmatter(DropLocalText(content));
    var frontmatter := TranslateFront(translator, ex, lang, store, parse, dump);
    var pieces := TranslateBody(translator, ex.body, lang, system, maxTokens, store, error);
    doc := Assemble(ex.hasFrontmatter, frontmatter, pieces);
  }

  /** `process_changed_file(ru_file_path, rel_path, target_language, book_repo_path,
      translator, max_tokens, system_prompt)`. */
  method ProcessChangedFile(ruFilePath: string, relPath: string, lang: string, bookRepo: string,
                            translator: Translator, maxTokens: int, system: string, file: SourceFile,
                            store: HintStore, error: string, parse: string -> Parsed, dump: YamlEntries -> string)
    returns (ok: bool, action: Action)
    modifies translator
    ensures var r := Processed(ScriptDocument(translator.client, translator.modelName, translator.glossary, lang,
                                              system, HintText(store.File(lang)), parse, dump, maxTokens, error),
                               lang, ruFilePath, relPath, bookRepo, file);
            ok == r.0 && action == r.1
            && translator.totalTokensProcessed == old(translator.totalTokensProcessed) + r.2
  {
    hide ScriptDocument;
    hide HintText;
    hide Document;
    if lang !in LangDirs {
      return false, Skip;
    }
    var output := OutputPath(bookRepo, lang, relPath);
    if !ShouldTranslate(ruFilePath, file.binary) {
      if file.writable {
        return true, Copy(ruFilePath, output);
      }
      return false, Skip;
    }
    if file.content.None? {
      return false, Skip;
    }
    var doc := TranslateDocument(translator, file.content.value, lang, system, maxTokens, store, error, parse, dump);
    if file.writable {
      return true, Write(output, doc);
    }
    return false, Skip;
  }

  // ---------------------------------------------------------------- one language

  /** The changed files, relative to the Russian directory, that exist there: the tasks of
      one language, in the order git listed them. */
  function Tasks(changed: seq<string>, ruDir: string, present: string -> bool): (r: seq<string>)
    ensures |r| <= |changed|
  {
    if changed == [] then []
    else
      var rest := Tasks(changed[..|changed| - 1], ruDir, present);
      var p := changed[|changed| - 1];
      if present(JoinPath(ruDir, p)) then rest + [p] else rest
  }

  /** A path is a task exactly when it was changed and exists in the Russian directory. */
  lemma {:induction false} TasksMembers(changed: seq<string>, ruDir: string, present: string -> bool)
    ensures forall p :: p in Tasks(changed, ruDir, present) <==> p in changed && present(JoinPath(ruDir, p))
  {
    if changed != [] {
      var init := changed[..|changed| - 1];
      TasksMembers(init, ruDir, present);
      assert changed == init + [changed[|changed| - 1]];
    }
  }

  /** Every changed file is a task exactly when every one of them exists. */
  lemma {:induction false} AllTasksIff(changed: seq<string>, ruDir: string, present: string -> bool)
    ensures |Tasks(changed, ruDir, present)| == |changed|
            <==> forall k :: 0 <= k < |changed| ==> present(JoinPath(ruDir, changed[k]))
  {
    if changed != [] {
      var n := |changed| - 1;
      var init := changed[..n];
      var rest := Tasks(init, ruDir, present);
      AllTasksIff(init, ruDir, present);
      assert forall k :: 0 <= k < n ==> init[k] == changed[k];
      if present(JoinPath(ruDir, changed[n])) {
        assert Tasks(changed, ruDir, present) == rest + [changed[n]];
      } else {
        assert Tasks(changed, ruDir, present) == rest;
        assert !present(JoinPath(ruDir, changed[n]));
      }
    }
  }

  /** The loop that builds the task list. */
  method CollectTasks(changed: seq<string>, ruDir: string, present: string -> bool) returns (tasks: seq<string>)
    ensures tasks == Tasks(changed, ruDir, present)
  {
    tasks := [];
    var i := 0;
    while i < |changed|
      invariant 0 <= i <= |changed|
      invariant tasks == Tasks(changed[..i], ruDir, present)
    {
      assert changed[..i + 1][..i] == changed[..i];
      if present(JoinPath(ruDir, changed[i])) {
        tasks := tasks + [changed[i]];
      }
      i := i + 1;
    }
    assert changed[..i] == changed;
  }

  /** The processing of one task, as a function of its relative path. */
  type Job = string -> (bool, Action, nat)

  /** The job of language `lang`: the file at the relative path, processed with that
      language's prompt and hints. */
  function LanguageJob(client: Request -> Reply, model: string, g: Glossary, lang: string, system: string,
                       hints: string, bookRepo: string, ruDir: string, files: string -> SourceFile,
                       maxTokens: int, error: string, parse: string -> Parsed, dump: YamlEntries -> string): Job
  {
    p => Processed(ScriptDocument(client, model, g, lang, system, hints, parse, dump, maxTokens, error),
                   lang, JoinPath(ruDir, p), p, bookRepo, files(JoinPath(ruDir, p)))
  }

  /** The tally of the first `n` tasks: the successes, the failed paths in task order, the
      tokens counted and the actions taken. */
  function Tally(job: Job, tasks: seq<string>, n: nat): (r: (nat, seq<string>, nat, seq<Action>))
    requires n <= |tasks|
    ensures r.0 + |r.1| == n && |r.3| == n
  {
    if n == 0 then (0, [], 0, [])
    else
      var prev := Tally(job, tasks, n - 1);
      var p := tasks[n - 1];
      var res := job(p);
      (if res.0 then prev.0 + 1 else prev.0,
       if res.0 then prev.1 else prev.1 + [p],
       prev.2 + res.2,
       prev.3 + [res.1])
  }

  /** A path is listed as failed exactly when it is a task whose processing failed, and the
      actions are those of the tasks in order. */
  lemma {:induction false} TallyExactly(job: Job, tasks: seq<string>, n: nat)
    requires n <= |tasks|
    ensures var r := Tally(job, tasks, n);
            (forall p :: p in r.1 <==> exists k :: 0 <= k < n && tasks[k] == p && !job(tasks[k]).0)
            && (forall k :: 0 <= k < n ==> r.3[k] == job(tasks[k]).1)
  {
    if n > 0 {
      TallyExactly(job, tasks, n - 1);
      var prev := Tally(job, tasks, n - 1);
      var r := Tally(job, tasks, n);
      forall p
        ensures p in r.1 <==> exists k :: 0 <= k < n && tasks[k] == p && !job(tasks[k]).0
      {
        if p in r.1 && p !in prev.1 {
          assert tasks[n - 1] == p && !job(tasks[n - 1]).0;
        }
        if exists k :: 0 <= k < n && tasks[k] == p && !job(tasks[k]).0 {
          var k :| 0 <= k < n && tasks[k] == p && !job(tasks[k]).0;
          if k < n - 1 {
            assert p in prev.1;
          }
        }
      }
    }
  }

  /** One task of the language: `process_changed_file` on the task's paths. */
  method ProcessTask(translator: Translator, p: string, lang: string, system: string, bookRepo: string,
                     ruDir: string, files: string -> SourceFile, maxTokens: int, store: HintStore, error: string,
                     parse: string -> Parsed, dump: YamlEntries -> string, ghost hints: string, ghost job: Job)
    returns (ok: bool, action: Action)
    requires hints == HintText(store.File(lang))
    requires job == LanguageJob(translator.client, translator.modelName, translator.glossary, lang, system, hints,
                                bookRepo, ruDir, files, maxTokens, error, parse, dump)
    modifies translator
    ensures translator.totalTokensProcessed >= old(translator.totalTokensProcessed)
    ensures job(p) == (ok, action, translator.totalTokensProcessed - old(translator.totalTokensProcessed))
  {
    hide Processed;
    hide ScriptDocument;
    hide HintText;
    var path := JoinPath(ruDir, p);
    ok, action := ProcessChangedFile(path, p, lang, bookRepo, translator, maxTokens, system, files(path),
                                     store, error, parse, dump);
  }

  /** The running values of the loop over the tasks hold the tally of the first `i` tasks. */
  ghost predicate Tallied(job: Job, tasks: seq<string>, i: nat, success: nat, failed: seq<string>, tokens: nat,
                          actions: seq<Action>) {
    i <= |tasks| && var t := Tally(job, tasks, i);
    success == t.0 && failed == t.1 && tokens == t.2 && actions == t.3
  }

  /** Before any task the tally is empty. */
  lemma TalliedStart(job: Job, tasks: seq<string>)
    ensures Tallied(job, tasks, 0, 0, [], 0, [])
  {
  }

  /** The result of task `i` added to the tally of the tasks before it. */
  method Record(ghost job: Job, tasks: seq<string>, i: nat, ok: bool, action: Action, ghost used: nat,
                success: nat, failed: seq<string>, ghost tokens: nat, actions: seq<Action>)
    returns (success': nat, failed': seq<string>, ghost tokens': nat, actions': seq<Action>)
    requires i < |tasks| && job(tasks[i]) == (ok, action, used)
    requires Tallied(job, tasks, i, success, failed, tokens, actions)
    ensures Tallied(job, tasks, i + 1, success', failed', tokens', actions') && tokens' == tokens + used
  {
    success', failed' := success, failed;
    if ok {
      success' := success + 1;
    } else {
      failed' := failed + [tasks[i]];
    }
    tokens' := tokens + used;
    actions' := actions + [action];
  }

  /** The loop over the tasks of one language, all processed with `translator`; `hints` is the
      text of the language's hint file. */
  method RunTasks(translator: Translator, tasks: seq<string>, lang: string, system: string, bookRepo: string,
                  ruDir: string, files: string -> SourceFile, maxTokens: int, store: HintStore, error: string,
                  parse: string -> Parsed, dump: YamlEntries -> string, ghost hints: string, ghost job: Job)
    returns (success: nat, failed: seq<string>, actions: seq<Action>)
    requires hints == HintText(store.File(lang))
    requires job == LanguageJob(translator.client, translator.modelName, translator.glossary, lang, system, hints,
                                bookRepo, ruDir, files, maxTokens, error, parse, dump)
    modifies translator
    ensures translator.totalTokensProcessed >= old(translator.totalTokensProcessed)
    ensures Tallied(job, tasks, |tasks|, success, failed,
                    translator.totalTokensProcessed - old(translator.totalTokensProcessed), actions)
  {
    hide *;
    TalliedStart(job, tasks);
    success, failed, actions := 0, [], [];
    ghost var counted: nat := 0;
    var i := 0;
    while i < |tasks|
      invariant i <= |tasks|
      invariant Tallied(job, tasks, i, success, failed, counted, actions)
      invariant translator.totalTokensProcessed == old(translator.totalTokensProcessed) + counted
    {
      ghost var before := translator.totalTokensProcessed;
      var ok, action := ProcessTask(translator, tasks[i], lang, system, bookRepo, ruDir, files, maxTokens, store,
                                    error, parse, dump, hints, job);
      success, failed, counted, actions := Record(job, tasks, i, ok, action, translator.totalTokensProcessed - before,
                                                  success, failed, counted, actions);
      i := i + 1;
    }
  }

  /** The processing of one target language: a translator of its own, the tasks, each of them
      processed, and the language's tally. */
  method RunLanguage(client: Request -> Reply, model: string, g: Glossary, lang: string, system: string,
                     changed: seq<string>, bookRepo: string, ruDir: string, present: string -> bool,
                     files: string -> SourceFile, maxTokens: int, store: HintStore, error: string,
                     parse: string -> Parsed, dump: YamlEntries -> string)
    returns (success: nat, failed: seq<string>, tokens: nat, actions: seq<Action>)
    ensures var tasks := Tasks(changed, ruDir, present);
            var job := LanguageJob(client, model, g, lang, system, HintText(store.File(lang)), bookRepo, ruDir,
                                   files, maxTokens, error, parse, dump);
            var t := Tally(job, tasks, |tasks|);
            success == t.0 && failed == t.1 && tokens == t.2 && actions == t.3
  {
    hide LanguageJob;
    hide ScriptDocument;
    hide HintText;
    hide Processed;
    var translator := new Translator(client, model, g);
    var tasks := CollectTasks(changed, ruDir, present);
    ghost var hints := HintText(store.File(lang));
    success, failed, actions := RunTasks(translator, tasks, lang, system, bookRepo, ruDir, files, maxTokens, store,
                                         error, parse, dump, hints,
                                         LanguageJob(client, model, g, lang, system, hints, bookRepo, ruDir, files,
                                                     maxTokens, error, parse, dump));
    tokens := translator.GetTotalTokens();
  }

  // ---------------------------------------------------------------- all languages

  /** The summary over the first `n` languages: tokens, successes, failures, and the failed
      paths of each language. `jobOf` gives the job of a language. */
  function Summary(jobOf: string -> Job, langs: seq<string>, tasks: seq<string>, n: nat)
    : (nat, nat, nat, map<string, seq<string>>)
    requires n <= |langs|
  {
    if n == 0 then (0, 0, 0, map[])
    else
      var prev := Summary(jobOf, langs, tasks, n - 1);
      var t := Tally(jobOf(langs[n - 1]), tasks, |tasks|);
      (prev.0 + t.2, prev.1 + t.0, prev.2 + |t.1|, prev.3[langs[n - 1] := t.1])
  }

  /** Every task of every language is counted once, as a success or as a failure. */
  lemma {:induction false} SummaryCounts(jobOf: string -> Job, langs: seq<string>, tasks: seq<string>, n: nat)
    requires n <= |langs|
    ensures var r := Summary(jobOf, langs, tasks, n); r.1 + r.2 == n * |tasks|
  {
    if n > 0 {
      SummaryCounts(jobOf, langs, tasks, n - 1);
      var t := Tally(jobOf(langs[n - 1]), tasks, |tasks|);
      assert t.0 + |t.1| == |tasks|;
      assert (n - 1) * |tasks| + |tasks| == n * |tasks|;
    }
  }

  /** The failed paths are kept for exactly the languages processed; with distinct languages,
      each language's entry lists exactly its own failed paths. */
  lemma {:induction false} SummaryFailures(jobOf: string -> Job, langs: seq<string>, tasks: seq<string>, n: nat)
    requires n <= |langs|
    requires forall j, k :: 0 <= j < k < |langs| ==> langs[j] != langs[k]
    ensures var r := Summary(jobOf, langs, tasks, n);
            (forall l :: l in r.3 <==> exists k :: 0 <= k < n && langs[k] == l)
            && forall k :: 0 <= k < n ==> r.3[langs[k]] == Tally(jobOf(langs[k]), tasks, |tasks|).1
  {
    hide Tally;
    if n > 0 {
      SummaryFailures(jobOf, langs, tasks, n - 1);
    }
  }

  /** The count the script reports as the number of files to process is the number of
      attempts plus the files that were skipped because they do not exist. */
  lemma AttemptsWithinReported(jobOf: string -> Job, langs: seq<string>, changed: seq<string>, ruDir: string,
                               present: string -> bool)
    ensures var tasks := Tasks(changed, ruDir, present);
            var r := Summary(jobOf, langs, tasks, |langs|);
            r.1 + r.2 <= |changed| * |langs|
            && (r.1 + r.2 == |changed| * |langs|
                <==> |langs| == 0 || forall k :: 0 <= k < |changed| ==> present(JoinPath(ruDir, changed[k])))
  {
    var tasks := Tasks(changed, ruDir, present);
    AllTasksIff(changed, ruDir, present);
    SummaryCounts(jobOf, langs, tasks, |langs|);
    assert |tasks| * |langs| <= |changed| * |langs| by {
      MulLe(|tasks|, |changed|, |langs|);
    }
    if |langs| > 0 && |tasks| < |changed| {
      MulLt(|tasks|, |changed|, |langs|);
    }
  }

  lemma MulLe(a: nat, b: nat, c: nat)
    requires a <= b
    ensures a * c <= b * c
  {
  }

  lemma MulLt(a: nat, b: nat, c: nat)
    requires a < b && c > 0
    ensures a * c < b * c
  {
  }

  /** The job of each language of a run, with `prompts` giving the system prompt of a language
      and `hintFiles` its hint file. */
  function JobOf(client: Request -> Reply, model: string, g: Glossary, prompts: string -> string,
                 hintFiles: map<string, HintFile>, bookRepo: string, ruDir: string, files: string -> SourceFile,
                 maxTokens: int, error: string, parse: string -> Parsed, dump: YamlEntries -> string): string -> Job
  {
    l => LanguageJob(client, model, g, l, prompts(l), HintText(if l in hintFiles then hintFiles[l] else Missing),
                     bookRepo, ruDir, files, maxTokens, error, parse, dump)
  }

  /** The language `langs[i]` added to the summary of the languages before it. */
  method AddLanguage(ghost jobOf: string -> Job, langs: seq<string>, ghost tasks: seq<string>, i: nat,
                     success: nat, failed: seq<string>, tokens: nat,
                     totalTokens: nat, successCount: nat, failedCount: nat, failures: map<string, seq<string>>)
    returns (totalTokens': nat, successCount': nat, failedCount': nat, failures': map<string, seq<string>>)
    requires i < |langs|
    requires var t := Tally(jobOf(langs[i]), tasks, |tasks|); success == t.0 && failed == t.1 && tokens == t.2
    requires (totalTokens, successCount, failedCount, failures) == Summary(jobOf, langs, tasks, i)
    ensures (totalTokens', successCount', failedCount', failures') == Summary(jobOf, langs, tasks, i + 1)
  {
    hide Tally;
    totalTokens' := totalTokens + tokens;
    successCount' := successCount + success;
    failedCount' := failedCount + |failed|;
    failures' := failures[langs[i] := failed];
  }

  /** The loop over the target languages of `main`, after the changed files are known, with
      `prompts` the system prompt of each language: the total tokens, the successes, the count
      of failures, and the failed paths of each language. */
  method TranslateChanged(client: Request -> Reply, model: string, g: Glossary, prompts: string -> string,
                          langs: seq<string>, changed: seq<string>, bookRepo: string, ruDir: string,
                          present: string -> bool, files: string -> SourceFile, maxTokens: int, store: HintStore,
                          error: string, parse: string -> Parsed, dump: YamlEntries -> string)
    returns (totalTokens: nat, successCount: nat, failedCount: nat, failures: map<string, seq<string>>)
    ensures var r := Summary(JobOf(client, model, g, prompts, store.files, bookRepo, ruDir, files, maxTokens, error,
                                   parse, dump), langs, Tasks(changed, ruDir, present), |langs|);
            (totalTokens, successCount, failedCount, failures) == r
  {
    hide LanguageJob;
    hide Tally;
    hide ScriptDocument;
    hide HintText;
    ghost var jobOf := JobOf(client, model, g, prompts, store.files, bookRepo, ruDir, files, maxTokens, error,
                             parse, dump);
    ghost var tasks := Tasks(changed, ruDir, present);
    totalTokens, successCount, failedCount, failures := 0, 0, 0, map[];
    var i := 0;
    while i < |langs|
      invariant 0 <= i <= |langs|
      invariant (totalTokens, successCount, failedCount, failures) == Summary(jobOf, langs, tasks, i)
    {
      var lang := langs[i];
      var success, failed, tokens, _ := RunLanguage(client, model, g, lang, prompts(lang), changed, bookRepo, ruDir,
                                                    present, files, maxTokens, store, error, parse, dump);
      assert jobOf(lang) == LanguageJob(client, model, g, lang, prompts(lang), HintText(store.File(lang)),
                                        bookRepo, ruDir, files, maxTokens, error, parse, dump);
      totalTokens, successCount, failedCount, failures :=
        AddLanguage(jobOf, langs, tasks, i, success, failed, tokens, totalTokens, successCount, failedCount, failures);
      i := i + 1;
    }
  }

  /** Steps 8 to 10 of `main`: the target languages chosen by `--language`, the sources read
      from the Russian directory of the book, and the system prompt of each language taken
      from the settings. */
  method TranslateBook(client: Request -> Reply, model: string, g: Glossary, c: Settings, arg: string,
                       changed: seq<string>, bookRepo: string, present: string -> bool,
                       files: string -> SourceFile, maxTokens: int, store: HintStore, error: string,
                       parse: string -> Parsed, dump: YamlEntries -> string)
    returns (totalTokens: nat, successCount: nat, failedCount: nat, failures: map<string, seq<string>>)
    requires LanguageChoice(arg)
    ensures var langs := TargetLanguages(arg);
            var ruDir := JoinPath(bookRepo, LangDirs[SourceLanguage]);
            var r := Summary(JobOf(client, model, g, l => SystemPrompt(c, l), store.files, bookRepo, ruDir, files,
                                   maxTokens, error, parse, dump), langs, Tasks(changed, ruDir, present), |langs|);
            totalTokens == r.0 && successCount == r.1 && failedCount == r.2 && failures == r.3
  {
    hide JobOf;
    hide Summary;
    hide Tasks;
    hide SystemPrompt;
    hide LanguageJob;
    var langs := TargetLanguages(arg);
    var ruDir := JoinPath(bookRepo, LangDirs[SourceLanguage]);
    totalTokens, successCount, failedCount, failures :=
      TranslateChanged(client, model, g, l => SystemPrompt(c, l), langs, changed, bookRepo, ruDir, present, files,
                       maxTokens, store, error, parse, dump);
  }
}
