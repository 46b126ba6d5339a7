// The script that translates a whole input directory: every file under it is translated
// (Markdown) or copied (anything else) into the output directory of each target language.
// Unlike the script for the book's repository, a part that fails to translate fails its
// whole file, and the Markdown extensions are matched with their case.

module MainScript {
  import opened Wrappers
  import opened Strings
  import opened Config
  import opened FileUtils
  import opened PromptHints
  import opened Translator
  import opened FrontmatterTranslation
  import opened Pipeline
  import MainTarget

  // ---------------------------------------------------------------- settings

  const DefaultMaxTokens := 8000

  /** The token budget of a run: a non-zero value on the command line wins, then the
      `max_tokens` of the settings, then 8000. */
  function MaxTokens(arg: Option<int>, c: Settings): (r: int)
    ensures arg.Some? && arg.value != 0 ==> r == arg.value
    ensures !(arg.Some? && arg.value != 0) ==>
              r == DefaultMaxTokens || (c.general.Some? && c.general.value.maxTokens == Some(r))
    ensures !(arg.Some? && arg.value != 0) && c.general.Some? && c.general.value.maxTokens.Some? ==>
              r == c.general.value.maxTokens.value
  {
    if arg.Some? && arg.value != 0 then arg.value
    else if c.general.None? || c.general.value.maxTokens.None? then DefaultMaxTokens
    else c.general.value.maxTokens.value
  }

  /** Without a settings file and without `--max_tokens` the documents are split at 8000
      tokens; a non-zero `--max_tokens` always wins. */
  lemma MaxTokensChoice(arg: Option<int>, c: Settings)
    ensures MaxTokens(arg, LoadConfig(None)) == (if arg.Some? && arg.value != 0 then arg.value else 8000)
    ensures arg.Some? && arg.value != 0 ==> MaxTokens(arg, c) == arg.value
  {
  }

  // ---------------------------------------------------------------- the parts, stopping at the first failure

  /** The first `n` parts translated in order, each from the context the previous one left,
      stopping at the first part that raises: the translations when none raised, the final
      context state and the tokens counted. */
  function StrictFold(tr: PartTranslator, parts: seq<string>, s: Snapshot, n: nat): (Option<seq<string>>, Snapshot, nat)
    requires n <= |parts|
  {
    if n == 0 then (Some([]), s, 0)
    else
      var prev := StrictFold(tr, parts, s, n - 1);
      if prev.0.None? then prev
      else
        var step := tr(parts[n - 1], prev.1);
        match step.0
        case Raised => (None, step.1, prev.2 + step.2)
        case Returned(text) => (Some(prev.0.value + [text]), step.1, prev.2 + step.2)
  }

  /** No part translated: no translation, the starting context, no tokens. */
  lemma StrictFoldNone(tr: PartTranslator, parts: seq<string>, s: Snapshot)
    ensures StrictFold(tr, parts, s, 0) == (Some([]), s, 0)
  {
  }

  /** One more part translated after parts that all returned. */
  lemma StrictFoldNext(tr: PartTranslator, parts: seq<string>, s: Snapshot, n: nat)
    requires n < |parts| && StrictFold(tr, parts, s, n).0.Some?
    ensures var prev := StrictFold(tr, parts, s, n);
            var step := tr(parts[n], prev.1);
            var next := StrictFold(tr, parts, s, n + 1);
            next.1 == step.1 && next.2 == prev.2 + step.2
            && (step.0.Raised? ==> next.0.None?)
            && (step.0.Returned? ==> next.0 == Some(prev.0.value + [step.0.text]))
  {
  }

  /** Once a part has raised, no later part is translated. */
  lemma {:induction false} StrictAbortPersists(tr: PartTranslator, parts: seq<string>, s: Snapshot, n: nat, m: nat)
    requires n <= m <= |parts| && StrictFold(tr, parts, s, n).0.None?
    ensures StrictFold(tr, parts, s, m) == StrictFold(tr, parts, s, n)
    decreases m - n
  {
    if n < m {
      StrictAbortPersists(tr, parts, s, n, m - 1);
    }
  }

  /** Stopping at the first failure succeeds exactly when translating every part would
      raise nowhere, and then gives the same translations, context and tokens. */
  lemma {:induction false} StrictAgreesWithParts(tr: PartTranslator, parts: seq<string>, s: Snapshot, n: nat)
    requires n <= |parts|
    ensures var strict := StrictFold(tr, parts, s, n);
            var all := PartsFold(tr, parts, s, n);
            (strict.0.Some? <==> forall k :: 0 <= k < n ==> all.0[k].Returned?)
            && (strict.0.Some? ==>
                  |strict.0.value| == n && strict.1 == all.1 && strict.2 == all.2
                  && forall k :: 0 <= k < n ==> strict.0.value[k] == all.0[k].text)
  {
    if n > 0 {
      StrictAgreesWithParts(tr, parts, s, n - 1);
      var prevS := StrictFold(tr, parts, s, n - 1);
      var prevA := PartsFold(tr, parts, s, n - 1);
      var all := PartsFold(tr, parts, s, n);
      PartsFoldNext(tr, parts, s, n - 1);
      assert forall k :: 0 <= k < n - 1 ==> all.0[k] == prevA.0[k];
      if prevS.0.None? {
        var j :| 0 <= j < n - 1 && !prevA.0[j].Returned?;
        assert !all.0[j].Returned?;
      } else {
        var step := tr(parts[n - 1], prevS.1);
        assert all.0[n - 1] == step.0;
        StrictFoldNext(tr, parts, s, n - 1);
        var strict := StrictFold(tr, parts, s, n);
        if step.0.Returned? {
          forall k | 0 <= k < n
            ensures strict.0.value[k] == all.0[k].text
          {
            if k < n - 1 {
              assert strict.0.value[k] == prevS.0.value[k];
            }
          }
        }
      }
    }
  }

  /** With a glossary whose every term has a mapping every part is translated; otherwise a
      document with at least one part fails. */
  lemma StrictFailsIffNullTerm(client: Request -> Reply, model: string, g: Glossary, lang: string, system: string,
                               hints: string, parts: seq<string>)
    ensures StrictFold(Part(client, model, g, lang, system, hints), parts, FreshSnapshot, |parts|).0.None?
            <==> !Loadable(g) && |parts| > 0
  {
    var tr := Part(client, model, g, lang, system, hints);
    StrictAgreesWithParts(tr, parts, FreshSnapshot, |parts|);
    PartsRaiseIffNullTerm(client, model, g, lang, system, hints, parts, FreshSnapshot, |parts|);
    if !Loadable(g) && |parts| > 0 {
      assert PartsFold(tr, parts, FreshSnapshot, |parts|).0[0].Raised?;
    }
  }

  /** The loop over the parts of one file: a fresh context, every part translated with it,
      and the file abandoned at the first part that raises. */
  method TranslatePartsStrict(translator: Translator, parts: seq<string>, lang: string, system: string,
                              store: HintStore) returns (texts: Option<seq<string>>)
    modifies translator
    ensures var run := StrictFold(Part(translator.client, translator.modelName, translator.glossary, lang, system,
                                       HintText(store.File(lang))), parts, FreshSnapshot, |parts|);
            texts == run.0 && translator.totalTokensProcessed == old(translator.totalTokensProcessed) + run.2
  {
    hide Part;
    hide StrictFold;
    hide TranslateSpec;
    hide HintText;
    ghost var hints := HintText(store.File(lang));
    ghost var tr := Part(translator.client, translator.modelName, translator.glossary, lang, system, hints);
    var context := new Context();
    StrictFoldNone(tr, parts, FreshSnapshot);
    var done: seq<string> := [];
    ghost var counted: nat := 0;
    var i := 0;
    while i < |parts|
      invariant 0 <= i <= |parts|
      invariant StrictFold(tr, parts, FreshSnapshot, i).0 == Some(done)
      invariant StrictFold(tr, parts, FreshSnapshot, i).1 == context.State()
      invariant StrictFold(tr, parts, FreshSnapshot, i).2 == counted
      invariant translator.totalTokensProcessed == old(translator.totalTokensProcessed) + counted
    {
      ghost var s := context.State();
      var outcome, ctx := translator.TranslateText(parts[i], lang, system, context, store);
      PartApplied(translator.client, translator.modelName, translator.glossary, lang, system, hints, parts[i], s);
      StrictFoldNext(tr, parts, FreshSnapshot, i);
      counted := counted + TranslateSpec(translator.client, translator.modelName, translator.glossary, parts[i], lang,
                                         system, hints, s).2;
      if outcome.Raised? {
        StrictAbortPersists(tr, parts, FreshSnapshot, i + 1, |parts|);
        return None;
      }
      done := done + [outcome.text];
      i := i + 1;
    }
    texts := Some(done);
  }

  // ---------------------------------------------------------------- one document

  /** The document written for a Markdown source `content`, when no part raised, and the
      tokens counted on the way: local-text regions removed, the frontmatter and the body
      translated, and the document assembled from the frontmatter and the translations. */
  function StrictDocument(field: FieldTranslator, tr: PartTranslator, parse: string -> Parsed,
                          dump: YamlEntries -> string, content: string, maxTokens: int): (Option<string>, nat)
  {
    var ex := ExtractFrontmatter(DropLocalText(content));
    var front := FrontOf(field, parse, dump, ex);
    var parts := SplitContentSpec(ex.body, maxTokens);
    var run := StrictFold(tr, parts, FreshSnapshot, |parts|);
    (if run.0.Some? then Some(Assemble(ex.hasFrontmatter, front.0, run.0.value)) else None, front.1 + run.2)
  }

  /** Where no part raises, the translations are the pieces the script for the book's
      repository joins, with the same tokens counted. */
  lemma TextsArePieces(tr: PartTranslator, parts: seq<string>, error: string)
    requires StrictFold(tr, parts, FreshSnapshot, |parts|).0.Some?
    ensures var run := PartsFold(tr, parts, FreshSnapshot, |parts|);
            var strict := StrictFold(tr, parts, FreshSnapshot, |parts|);
            strict.0.value == MainTarget.Marked(run.0, error) && strict.2 == run.2
  {
    hide StrictFold;
    hide PartsFold;
    var run := PartsFold(tr, parts, FreshSnapshot, |parts|);
    var strict := StrictFold(tr, parts, FreshSnapshot, |parts|);
    StrictAgreesWithParts(tr, parts, FreshSnapshot, |parts|);
    var pieces := MainTarget.Marked(run.0, error);
    forall k | 0 <= k < |parts|
      ensures strict.0.value[k] == pieces[k]
    {
      assert pieces[k] == MainTarget.Piece(k, run.0[k], error);
    }
  }

  /** A document no part of which raises is written exactly as the script for the book's
      repository writes it, with the same tokens counted. */
  lemma SameDocumentWhenNoneRaise(field: FieldTranslator, tr: PartTranslator, parse: string -> Parsed,
                                  dump: YamlEntries -> string, content: string, maxTokens: int, error: string)
    requires var parts := SplitContentSpec(ExtractFrontmatter(DropLocalText(content)).body, maxTokens);
             StrictFold(tr, parts, FreshSnapshot, |parts|).0.Some?
    ensures var d := MainTarget.DocumentSpec(field, tr, parse, dump, content, maxTokens, error);
            StrictDocument(field, tr, parse, dump, content, maxTokens) == (Some(d.0), d.1)
  {
    hide FrontOf;
    hide Assemble;
    hide ExtractFrontmatter;
    hide DropLocalText;
    hide SplitContentSpec;
    hide StrictFold;
    hide PartsFold;
    hide MainTarget.Marked;
    var ex := ExtractFrontmatter(DropLocalText(content));
    TextsArePieces(tr, SplitContentSpec(ex.body, maxTokens), error);
  }

  /** With a glossary whose every term has a mapping a document is always written; otherwise
      every document whose body has at least one part fails. */
  lemma StrictDocumentFailsIff(client: Request -> Reply, model: string, g: Glossary, lang: string, system: string,
                               hints: string, parse: string -> Parsed, dump: YamlEntries -> string,
                               content: string, maxTokens: int)
    ensures var parts := SplitContentSpec(ExtractFrontmatter(DropLocalText(content)).body, maxTokens);
            ScriptDocument(client, model, g, lang, system, hints, parse, dump, maxTokens)(content).0.None?
            <==> !Loadable(g) && |parts| > 0
  {
    hide FrontOf;
    hide Assemble;
    hide Field;
    hide SplitContentSpec;
    var ex := ExtractFrontmatter(DropLocalText(content));
    StrictFailsIffNullTerm(client, model, g, lang, system, hints, SplitContentSpec(ex.body, maxTokens));
  }

  /** The translation of a whole Markdown source: the document, if any, and the tokens counted. */
  type DocumentTranslator = string -> (Option<string>, nat)

  /** The document translator of the script: fields with the frontmatter prompt, parts with
      the language's system prompt, both with the language's hints. */
  function ScriptDocument(client: Request -> Reply, model: string, g: Glossary, lang: string, system: string,
                          hints: string, parse: string -> Parsed, dump: YamlEntries -> string,
                          maxTokens: int): DocumentTranslator
  {
    content => StrictDocument(Field(client, model, g, lang, FieldPrompt(lang), hints),
                              Part(client, model, g, lang, system, hints), parse, dump, content, maxTokens)
  }

  /** The translation of a readable Markdown file, from removing the local text to
      assembling the document, abandoned when a part raises. */
  method TranslateDocument(translator: Translator, content: string, lang: string, system: string, maxTokens: int,
                           store: HintStore, parse: string -> Parsed, dump: YamlEntries -> string)
    returns (doc: Option<string>)
    modifies translator
    ensures var d := ScriptDocument(translator.client, translator.modelName, translator.glossary, lang, system,
                                    HintText(store.File(lang)), parse, dump, maxTokens)(content);
            doc == d.0 && translator.totalTokensProcessed == old(translator.totalTokensProcessed) + d.1
  {
    hide FrontOf;
    hide StrictFold;
    hide Field;
    hide Part;
    hide FieldPrompt;
    hide HintText;
    hide ExtractFrontmatter;
    hide DropLocalText;
    hide Assemble;
    hide SplitContentSpec;
    var ex := ExtractFrontmatter(DropLocalText(content));
    var frontmatter := TranslateFront(translator, ex, lang, store, parse, dump);
    var parts := SplitContent(ex.body, maxTokens);
    var texts := TranslatePartsStrict(translator, parts, lang, system, store);
    if texts.None? {
      return None;
    }
    doc := Some(Assemble(ex.hasFrontmatter, frontmatter, texts.value));
  }

  // ---------------------------------------------------------------- one file

  /** The path ends in `.md` or `.mdx`, letter case included. */
  predicate IsMarkdown(path: string) {
    EndsWith(path, ".md") || EndsWith(path, ".mdx")
  }

  /** A file this script translates is translated by the book's script too, which ignores
      the case of the extension. */
  lemma MarkdownAlsoTranslated(path: string)
    requires IsMarkdown(path)
    ensures MainTarget.ShouldTranslate(path, false)
  {
    var l := Lower(path);
    var n := |path|;
    if EndsWith(path, ".md") {
      assert path[n - 3..] == ".md";
      assert path[n - 3] == '.' && path[n - 2] == 'm' && path[n - 1] == 'd';
      assert l[n - 3..] == ".md" by {
        assert l[n - 3] == LowerChar(path[n - 3]) && l[n - 2] == LowerChar(path[n - 2])
               && l[n - 1] == LowerChar(path[n - 1]);
      }
    } else {
      assert path[n - 4..] == ".mdx";
      assert path[n - 4] == '.' && path[n - 3] == 'm' && path[n - 2] == 'd' && path[n - 1] == 'x';
      assert l[n - 4..] == ".mdx" by {
        assert l[n - 4] == LowerChar(path[n - 4]) && l[n - 3] == LowerChar(path[n - 3])
               && l[n - 2] == LowerChar(path[n - 2]) && l[n - 1] == LowerChar(path[n - 1]);
      }
    }
  }

  /** Where the file `relPath` of the input directory goes for language `lang`. */
  function OutputFile(outputDir: string, lang: string, relPath: string): (r: string)
    ensures !StartsWith(relPath, "/") ==> EndsWith(r, relPath)
  {
    JoinPath(JoinPath(outputDir, lang), relPath)
  }

  /** `process_file`, with `document` the translation of a readable Markdown source:
      whether it succeeded, what it did, and the tokens counted. */
  function FileResult(document: DocumentTranslator, filePath: string, relPath: string, outputDir: string,
                      lang: string, file: SourceFile): (bool, Action, nat)
  {
    if file.binary || !IsMarkdown(filePath) then
      if file.writable then (true, Copy(filePath, OutputFile(outputDir, lang, relPath)), 0) else (false, Skip, 0)
    else if file.content.None? then (false, Skip, 0)
    else
      var d := document(file.content.value);
      if d.0.Some? && file.writable then (true, Write(OutputFile(outputDir, lang, relPath), d.0.value), d.1)
      else (false, Skip, d.1)
  }

  /** A file fails exactly when its target cannot be written, or it is a Markdown text that
      cannot be read or whose translation was abandoned; a failed file changes nothing, and a
      copy asks nothing of the service. */
  lemma FileFailsIff(document: DocumentTranslator, filePath: string, relPath: string, outputDir: string,
                     lang: string, file: SourceFile)
    ensures var r := FileResult(document, filePath, relPath, outputDir, lang, file);
            var translated := !file.binary && IsMarkdown(filePath);
            (!r.0 <==> !file.writable
                       || (translated && (file.content.None? || document(file.content.value).0.None?)))
            && (!r.0 ==> r.1 == Skip)
            && (r.0 ==> (r.1.Copy? <==> !translated) && (r.1.Write? <==> translated))
            && (r.1.Copy? ==> r.2 == 0 && r.1.source == filePath)
  {
  }

  /** What gets written lands under the language's directory at the file's relative path. */
  lemma FileTargets(document: DocumentTranslator, filePath: string, relPath: string, outputDir: string,
                    lang: string, file: SourceFile)
    requires !StartsWith(relPath, "/")
    ensures var r := FileResult(document, filePath, relPath, outputDir, lang, file);
            (r.1.Copy? ==> EndsWith(r.1.target, relPath)) && (r.1.Write? ==> EndsWith(r.1.target, relPath))
  {
  }

  /** A text file named with an upper-case `.MD` is copied, not translated, although the
      script for the book's repository translates it. */
  lemma UpperCaseExtensionCopied(document: DocumentTranslator, stem: string, relPath: string, outputDir: string,
                                 lang: string, content: string)
    ensures FileResult(document, stem + ".MD", relPath, outputDir, lang, SourceFile(false, Some(content), true))
            == (true, Copy(stem + ".MD", OutputFile(outputDir, lang, relPath)), 0)
    ensures MainTarget.ShouldTranslate(stem + ".MD", false)
  {
    var p := stem + ".MD";
    assert p[|p| - 1] == 'D';
    assert !IsMarkdown(p);
    MainTarget.UpperCaseExtensionTranslated(stem);
  }

  /** `process_file(file_path, rel_path, output_dir, target_language, translator, max_tokens)`,
      with `system` the prompt `get_system_prompt(CONFIG, target_language)`. */
  method ProcessFile(filePath: string, relPath: string, outputDir: string, lang: string, translator: Translator,
                     maxTokens: int, system: string, file: SourceFile, store: HintStore,
                     parse: string -> Parsed, dump: YamlEntries -> string)
    returns (ok: bool, action: Action)
    modifies translator
    ensures var r := FileResult(ScriptDocument(translator.client, translator.modelName, translator.glossary, lang,
                                               system, HintText(store.File(lang)), parse, dump, maxTokens),
                                filePath, relPath, outputDir, lang, file);
            ok == r.0 && action == r.1
            && translator.totalTokensProcessed == old(translator.totalTokensProcessed) + r.2
  {
    hide ScriptDocument;
    hide HintText;
    var output := OutputFile(outputDir, lang, relPath);
    if file.binary || !IsMarkdown(filePath) {
      if file.writable {
        return true, Copy(filePath, output);
      }
      return false, Skip;
    }
    if file.content.None? {
      return false, Skip;
    }
    var doc := TranslateDocument(translator, file.content.value, lang, system, maxTokens, store, parse, dump);
    if doc.Some? && file.writable {
      return true, Write(output, doc.value);
    }
    return false, Skip;
  }

  // ---------------------------------------------------------------- one language

  /** The processing of one walked file, given as its full path and its path relative to
      the input directory. */
  type FileJob = ((string, string)) -> (bool, Action, nat)

  /** The job of language `lang`: the walked file processed with that language's prompt
      and hints. */
  function DirectoryJob(client: Request -> Reply, model: string, g: Glossary, lang: string, system: string,
                        hints: string, outputDir: string, files: string -> SourceFile, maxTokens: int,
                        parse: string -> Parsed, dump: YamlEntries -> string): FileJob
  {
    (entry: (string, string)) => FileResult(ScriptDocument(client, model, g, lang, system, hints, parse, dump, maxTokens),
                                        entry.0, entry.1, outputDir, lang, files(entry.0))
  }

  /** The results of the first `n` walked files: how many succeeded, the tokens counted and
      the actions taken. */
  function Walked(job: FileJob, allFiles: seq<(string, string)>, n: nat): (r: (nat, nat, seq<Action>))
    requires n <= |allFiles|
    ensures r.0 <= n && |r.2| == n
  {
    if n == 0 then (0, 0, [])
    else
      var prev := Walked(job, allFiles, n - 1);
      var res := job(allFiles[n - 1]);
      (if res.0 then prev.0 + 1 else prev.0, prev.1 + res.2, prev.2 + [res.1])
  }

  /** The success count is the number of files exactly when every file succeeded and
      zero exactly when none did; the actions are those of the files in order. */
  lemma {:induction false} WalkedCounts(job: FileJob, allFiles: seq<(string, string)>, n: nat)
    requires n <= |allFiles|
    ensures var r := Walked(job, allFiles, n);
            (r.0 == n <==> forall k :: 0 <= k < n ==> job(allFiles[k]).0)
            && (r.0 == 0 <==> forall k :: 0 <= k < n ==> !job(allFiles[k]).0)
            && (forall k :: 0 <= k < n ==> r.2[k] == job(allFiles[k]).1)
  {
    if n > 0 {
      WalkedCounts(job, allFiles, n - 1);
      var prev := Walked(job, allFiles, n - 1);
      var r := Walked(job, allFiles, n);
      assert r.2 == prev.2 + [job(allFiles[n - 1]).1];
      if !(forall k :: 0 <= k < n - 1 ==> job(allFiles[k]).0) {
        assert prev.0 < n - 1;
      }
    }
  }

  /** The running values of the loop over the walked files hold the results of the first `i`. */
  ghost predicate WalkedSoFar(job: FileJob, allFiles: seq<(string, string)>, i: nat, success: nat, tokens: nat,
                              actions: seq<Action>) {
    i <= |allFiles| && var w := Walked(job, allFiles, i);
    success == w.0 && tokens == w.1 && actions == w.2
  }

  /** Before any file nothing is counted. */
  lemma WalkedStart(job: FileJob, allFiles: seq<(string, string)>)
    ensures WalkedSoFar(job, allFiles, 0, 0, 0, [])
  {
  }

  /** The result of file `i` added to the results of the files before it. */
  method CountFile(ghost job: FileJob, allFiles: seq<(string, string)>, i: nat, ok: bool, action: Action,
                   ghost used: nat, success: nat, ghost tokens: nat, actions: seq<Action>)
    returns (success': nat, ghost tokens': nat, actions': seq<Action>)
    requires i < |allFiles| && job(allFiles[i]) == (ok, action, used)
    requires WalkedSoFar(job, allFiles, i, success, tokens, actions)
    ensures WalkedSoFar(job, allFiles, i + 1, success', tokens', actions') && tokens' == tokens + used
  {
    success' := if ok then success + 1 else success;
    tokens' := tokens + used;
    actions' := actions + [action];
  }

  /** One walked file of the language: `process_file` on its paths. */
  method ProcessEntry(translator: Translator, entry: (string, string), outputDir: string, lang: string,
                      maxTokens: int, system: string, files: string -> SourceFile, store: HintStore,
                      parse: string -> Parsed, dump: YamlEntries -> string, ghost hints: string, ghost job: FileJob)
    returns (ok: bool, action: Action)
    requires hints == HintText(store.File(lang))
    requires job == DirectoryJob(translator.client, translator.modelName, translator.glossary, lang, system, hints,
                                 outputDir, files, maxTokens, parse, dump)
    modifies translator
    ensures translator.totalTokensProcessed >= old(translator.totalTokensProcessed)
    ensures job(entry) == (ok, action, translator.totalTokensProcessed - old(translator.totalTokensProcessed))
  {
    hide FileResult;
    hide ScriptDocument;
    hide HintText;
    ok, action := ProcessFile(entry.0, entry.1, outputDir, lang, translator, maxTokens, system, files(entry.0),
                              store, parse, dump);
  }

  /** `process_directory(input_dir, output_dir, target_language, translator, max_tokens,
      max_workers)` after the walk, with `allFiles` the walked files in the order of the walk:
      the number of files that succeeded, the translator's token total, and the actions. */
  method ProcessDirectory(translator: Translator, allFiles: seq<(string, string)>, outputDir: string, lang: string,
                          maxTokens: int, system: string, files: string -> SourceFile, store: HintStore,
                          parse: string -> Parsed, dump: YamlEntries -> string, ghost hints: string,
                          ghost job: FileJob)
    returns (successCount: nat, tokens: nat, actions: seq<Action>)
    requires hints == HintText(store.File(lang))
    requires job == DirectoryJob(translator.client, translator.modelName, translator.glossary, lang, system, hints,
                                 outputDir, files, maxTokens, parse, dump)
    modifies translator
    ensures tokens == translator.totalTokensProcessed && tokens >= old(translator.totalTokensProcessed)
    ensures WalkedSoFar(job, allFiles, |allFiles|, successCount, tokens - old(translator.totalTokensProcessed),
                        actions)
  {
    hide *;
    WalkedStart(job, allFiles);
    successCount, actions := 0, [];
    ghost var counted: nat := 0;
    var i := 0;
    while i < |allFiles|
      invariant i <= |allFiles|
      invariant WalkedSoFar(job, allFiles, i, successCount, counted, actions)
      invariant translator.totalTokensProcessed == old(translator.totalTokensProcessed) + counted
    {
      ghost var before := translator.totalTokensProcessed;
      var ok, action := ProcessEntry(translator, allFiles[i], outputDir, lang, maxTokens, system, files, store,
                                     parse, dump, hints, job);
      successCount, counted, actions := CountFile(job, allFiles, i, ok, action,
                                                  translator.totalTokensProcessed - before,
                                                  successCount, counted, actions);
      i := i + 1;
    }
    tokens := translator.GetTotalTokens();
  }

  /** One target language: a translator of its own and the directory processed with it. */
  method RunLanguage(client: Request -> Reply, model: string, g: Glossary, lang: string, system: string,
                     allFiles: seq<(string, string)>, outputDir: string, files: string -> SourceFile,
                     maxTokens: int, store: HintStore, parse: string -> Parsed, dump: YamlEntries -> string)
    returns (successCount: nat, tokens: nat)
    ensures var w := Walked(DirectoryJob(client, model, g, lang, system, HintText(store.File(lang)), outputDir,
                                         files, maxTokens, parse, dump), allFiles, |allFiles|);
            successCount == w.0 && tokens == w.1
  {
    hide DirectoryJob;
    hide ScriptDocument;
    hide HintText;
    hide FileResult;
    var translator := new Translator(client, model, g);
    ghost var hints := HintText(store.File(lang));
    var actions;
    successCount, tokens, actions := ProcessDirectory(translator, allFiles, outputDir, lang, maxTokens, system, files,
                                                      store, parse, dump, hints,
                                                      DirectoryJob(client, model, g, lang, system, hints, outputDir,
                                                                   files, maxTokens, parse, dump));
  }

  // ---------------------------------------------------------------- all languages

  /** The job of each language of a run, with `prompts` giving the system prompt of a language
      and `hintFiles` its hint file. */
  function JobOf(client: Request -> Reply, model: string, g: Glossary, prompts: string -> string,
                 hintFiles: map<string, HintFile>, outputDir: string, files: string -> SourceFile,
                 maxTokens: int, parse: string -> Parsed, dump: YamlEntries -> string): string -> FileJob
  {
    l => DirectoryJob(client, model, g, l, prompts(l), HintText(if l in hintFiles then hintFiles[l] else Missing),
                      outputDir, files, maxTokens, parse, dump)
  }

  /** The tokens of all the languages: the sum of each language's translator total. */
  function TotalTokens(jobOf: string -> FileJob, langs: seq<string>, allFiles: seq<(string, string)>): nat {
    if langs == [] then 0
    else TotalTokens(jobOf, langs[..|langs| - 1], allFiles) + Walked(jobOf(langs[|langs| - 1]), allFiles, |allFiles|).1
  }

  /** The total of two runs one after the other is the sum of their totals. */
  lemma {:induction false} TotalTokensConcat(jobOf: string -> FileJob, a: seq<string>, b: seq<string>,
                                             allFiles: seq<(string, string)>)
    ensures TotalTokens(jobOf, a + b, allFiles) == TotalTokens(jobOf, a, allFiles) + TotalTokens(jobOf, b, allFiles)
  {
    if b == [] {
      assert a + b == a;
    } else {
      var init := b[..|b| - 1];
      TotalTokensConcat(jobOf, a, init, allFiles);
      assert (a + b)[..|a + b| - 1] == a + init;
      assert (a + b)[|a + b| - 1] == b[|b| - 1];
    }
  }

  /** Each language's tokens are part of the total. */
  lemma {:induction false} TotalTokensCovers(jobOf: string -> FileJob, langs: seq<string>,
                                             allFiles: seq<(string, string)>, k: nat)
    requires k < |langs|
    ensures Walked(jobOf(langs[k]), allFiles, |allFiles|).1 <= TotalTokens(jobOf, langs, allFiles)
  {
    var n := |langs| - 1;
    if k < n {
      TotalTokensCovers(jobOf, langs[..n], allFiles, k);
      assert langs[..n][k] == langs[k];
    }
  }

  /** The running values of the loop over the languages hold the total and the success
      counts of the first `i` languages. */
  ghost predicate Summed(jobOf: string -> FileJob, langs: seq<string>, allFiles: seq<(string, string)>, i: nat,
                         total: nat, successes: seq<nat>) {
    i <= |langs| && total == TotalTokens(jobOf, langs[..i], allFiles) && |successes| == i
    && forall k :: 0 <= k < i ==> successes[k] == Walked(jobOf(langs[k]), allFiles, |allFiles|).0
  }

  /** Before any language nothing is counted. */
  lemma SummedStart(jobOf: string -> FileJob, langs: seq<string>, allFiles: seq<(string, string)>)
    ensures Summed(jobOf, langs, allFiles, 0, 0, [])
  {
  }

  /** After every language the running values are the totals of the run. */
  lemma SummedAll(jobOf: string -> FileJob, langs: seq<string>, allFiles: seq<(string, string)>,
                  total: nat, successes: seq<nat>)
    requires Summed(jobOf, langs, allFiles, |langs|, total, successes)
    ensures total == TotalTokens(jobOf, langs, allFiles) && |successes| == |langs|
    ensures forall k :: 0 <= k < |langs| ==> successes[k] == Walked(jobOf(langs[k]), allFiles, |allFiles|).0
  {
    assert langs[..|langs|] == langs;
  }

  /** The language `langs[i]` added to the running values of the languages before it. */
  method AddLanguage(ghost jobOf: string -> FileJob, langs: seq<string>, allFiles: seq<(string, string)>, i: nat,
                     success: nat, tokens: nat, total: nat, successes: seq<nat>)
    returns (total': nat, successes': seq<nat>)
    requires i < |langs|
    requires var w := Walked(jobOf(langs[i]), allFiles, |allFiles|); success == w.0 && tokens == w.1
    requires Summed(jobOf, langs, allFiles, i, total, successes)
    ensures Summed(jobOf, langs, allFiles, i + 1, total', successes')
  {
    hide Walked;
    assert langs[..i + 1][..i] == langs[..i] && langs[..i + 1][i] == langs[i];
    total' := total + tokens;
    successes' := successes + [success];
  }

  /** The job of a language, applied. */
  lemma JobOfApplied(client: Request -> Reply, model: string, g: Glossary, prompts: string -> string,
                     store: HintStore, outputDir: string, files: string -> SourceFile, maxTokens: int,
                     parse: string -> Parsed, dump: YamlEntries -> string, l: string)
    ensures JobOf(client, model, g, prompts, store.files, outputDir, files, maxTokens, parse, dump)(l)
            == DirectoryJob(client, model, g, l, prompts(l), HintText(store.File(l)), outputDir, files, maxTokens,
                            parse, dump)
  {
  }

  /** The loop over the target languages of `main`, with `prompts` the system prompt of each
      language: the running token total and the success count of each language. */
  method TranslateLanguages(client: Request -> Reply, model: string, g: Glossary, prompts: string -> string,
                            langs: seq<string>, allFiles: seq<(string, string)>, outputDir: string,
                            files: string -> SourceFile, maxTokens: int, store: HintStore,
                            parse: string -> Parsed, dump: YamlEntries -> string)
    returns (total: nat, successes: seq<nat>)
    ensures var jobOf := JobOf(client, model, g, prompts, store.files, outputDir, files, maxTokens, parse, dump);
            total == TotalTokens(jobOf, langs, allFiles) && |successes| == |langs|
            && forall k :: 0 <= k < |langs| ==> successes[k] == Walked(jobOf(langs[k]), allFiles, |allFiles|).0
  {
    hide *;
    ghost var jobOf := JobOf(client, model, g, prompts, store.files, outputDir, files, maxTokens, parse, dump);
    SummedStart(jobOf, langs, allFiles);
    total, successes := 0, [];
    var i := 0;
    while i < |langs|
      invariant i <= |langs|
      invariant Summed(jobOf, langs, allFiles, i, total, successes)
    {
      var lang := langs[i];
      var success, tokens := RunLanguage(client, model, g, lang, prompts(lang), allFiles, outputDir, files,
                                         maxTokens, store, parse, dump);
      JobOfApplied(client, model, g, prompts, store, outputDir, files, maxTokens, parse, dump, lang);
      total, successes := AddLanguage(jobOf, langs, allFiles, i, success, tokens, total, successes);
      i := i + 1;
    }
    SummedAll(jobOf, langs, allFiles, total, successes);
  }

  /** `main` after its settings are read: nothing is done when the input directory does not
      exist; otherwise the languages chosen by `--language` are processed one after the other,
      each with the system prompt the settings give it. */
  method TranslateAll(client: Request -> Reply, model: string, g: Glossary, c: Settings, arg: string,
                      inputExists: bool, allFiles: seq<(string, string)>, outputDir: string,
                      files: string -> SourceFile, maxTokens: int, store: HintStore,
                      parse: string -> Parsed, dump: YamlEntries -> string)
    returns (total: nat, successes: seq<nat>)
    requires LanguageChoice(arg)
    ensures !inputExists ==> total == 0 && successes == []
    ensures inputExists ==>
              var langs := TargetLanguages(arg);
              var jobOf := JobOf(client, model, g, l => SystemPrompt(c, l), store.files, outputDir, files,
                                 maxTokens, parse, dump);
              total == TotalTokens(jobOf, langs, allFiles) && |successes| == |langs|
              && forall k :: 0 <= k < |langs| ==> successes[k] == Walked(jobOf(langs[k]), allFiles, |allFiles|).0
  {
    hide JobOf;
    hide TotalTokens;
    hide Walked;
    hide SystemPrompt;
    hide DirectoryJob;
    if !inputExists {
      return 0, [];
    }
    total, successes := TranslateLanguages(client, model, g, l => SystemPrompt(c, l), TargetLanguages(arg),
                                           allFiles, outputDir, files, maxTokens, store, parse, dump);
  }
}
