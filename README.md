# Markdown book translation: a verified model

This project models the text-processing core of a tool that translates a Russian
Docusaurus book into English, Spanish and Chinese with a chat-completion service. It
covers the following pieces:

- the settings and glossary loaders and the system and validation prompts they produce;
- frontmatter extraction and restoration;
- the sectioning and packing algorithm that cuts a document into parts fitting a token budget;
- the translator object and its per-document context (previous terms, part number, token counts);
- the store of "prompt improvements" learned from validation, with its similarity test;
- frontmatter translation field by field;
- the parser of the output of `git status --porcelain=v1 --untracked-files=all`, whose lines read
  `XY path`, with `??` for an untracked file and `old -> new` for a rename;
- the validation of a translation against the glossary, and the validation report;
- the two drivers: one translates the files changed in a git repository, the other translates a
  whole directory.

The service, the YAML and JSON parsers, the file system and `git` are not modelled. Each is a
parameter:

- the chat service is a function from a request to a reply;
- a parser or dumper is a function on strings;
- a file is a `SourceFile` value saying whether it looks binary, whether it can be read, and
  whether its target can be written;
- the output of `git status` is an optional string.

Each module follows one source file:

| module | source |
|---|---|
| `Config` | `utils/config.py` |
| `FileUtils` | `utils/file_utils.py` |
| `PromptHints` | `load_prompt_improvements`, `save_prompt_improvement` and `calculate_similarity` of `utils/prompt_utils.py` |
| `FrontmatterTranslation` | `translate_frontmatter` of `utils/prompt_utils.py` |
| `Translator` | `utils/translator.py` |
| `GitUtils` | `utils/git_utils.py` |
| `Validate` | `validate.py` |
| `MainTarget` | `main_target.py` |
| `MainScript` | `main.py` |
| `Pipeline` | the steps both drivers share |
| `Strings`, `Wrappers` | the Python string methods the source relies on, and `Option` |

Pure code is modelled as functions with lemmas about them. Code that loops or updates state
is modelled as methods with loops, each proved equal to a specification function:

- the line loop of `split_content`;
- the translator and its context, which are classes;
- the filter loop of `validate_translation`;
- the task loops of both drivers.

## Model

| member | source | states |
|---|---|---|
| `Config.LoadConfig` | utils/config.py:6-22 | a parsed settings file is returned as is; without one the defaults are `max_tokens` 8000, `max_workers` 4, an empty `api` and no languages |
| `Config.LanguageSettings` | utils/config.py:24-35 | the language's own section when the settings have one, otherwise an empty section |
| `Config.LoadGlossary` | utils/config.py:144-160 | the `terms` list of the glossary file, or no terms when the file or the list is missing |
| `Config.SystemPrompt` | utils/config.py:37-99 | the system prompt never starts or ends with whitespace |
| `Config.ConfiguredSystemPromptWins` | utils/config.py:49-53 | a non-empty prompt configured for the language is used, stripped |
| `Config.DefaultSystemPromptUsed` | utils/config.py:54-99 | with no configured prompt, the result is the built-in text for the language without its surrounding layout |
| `Config.DefaultPromptStrips` | utils/config.py:54-99 | stripping removes exactly the newlines and indentation around each built-in prompt |
| `Config.TranslationDefaultStrips` | utils/config.py:54-64 | stripping the framed English or generic prompt yields its text |
| `Config.SpanishDefaultStrips` | utils/config.py:65-75 | stripping the framed Spanish prompt yields its text |
| `Config.ChineseDefaultStrips` | utils/config.py:76-86 | stripping the framed Chinese prompt yields its text |
| `Config.GenericPromptNamesLanguage` | utils/config.py:87-97 | for a language other than en, es and zh, the default prompt names the target language |
| `Config.ValidationPrompt` | utils/config.py:101-142 | the validation prompt never starts or ends with whitespace |
| `Config.ConfiguredValidationPromptWins` | utils/config.py:113-117 | a non-empty configured validation prompt is used, stripped |
| `Config.DefaultValidationPromptUsed` | utils/config.py:117-142 | with no configured validation prompt, the built-in one is used |
| `Config.DefaultValidationPromptNamesLanguage` | utils/config.py:117-140 | the built-in validation prompt names the target language |
| `Config.StripFramedBody` | utils/config.py:99 | a text whose ends are not whitespace comes back unchanged from stripping its framed form |
| `FileUtils.ExtractFrontmatter` | utils/file_utils.py:25-42 | a frontmatter is found exactly when the text starts with `---` and has another `---` from index 3 on; the frontmatter is then a prefix of the text running up to and including that marker, and the body is the stripped rest; otherwise the body is the whole text |
| `FileUtils.RestoreFrontmatter` | utils/file_utils.py:44-57 | without a frontmatter, or with an empty one, the content comes back unchanged; otherwise the frontmatter and a blank line come first and the content follows whole |
| `FileUtils.ExtractAfterRestore` | utils/file_utils.py:25-57 | restoring a well-formed frontmatter in front of a stripped body and extracting again gives back both |
| `FileUtils.ExtractJoined` | utils/file_utils.py:25-42 | a well-formed frontmatter followed by any text is extracted whole, with the stripped text as body |
| `FileUtils.ExtractAt` | utils/file_utils.py:31-39 | the frontmatter ends at the first `---` found from index 3 |
| `FileUtils.ClosingMarkerFound` | utils/file_utils.py:33 | in a well-formed frontmatter followed by text, the search from index 3 finds the frontmatter's closing marker |
| `FileUtils.ExtractRestoreExtract` | utils/file_utils.py:25-57 | extracting, restoring and extracting again yields the first extraction |
| `FileUtils.RestoreWithoutFrontmatter` | utils/file_utils.py:44-57 | a text not starting with `---` comes back unchanged from extraction followed by restoration |
| `FileUtils.LeadingHashes` | utils/file_utils.py:127-129 | the number of `#` characters that open a line, and no more |
| `FileUtils.HeadingLevel` | utils/file_utils.py:127-129 | a level from 1 to 6 exactly when the line is an ATX heading of that level, 0 when it is no heading at all |
| `FileUtils.HeadingIsPlain` | utils/file_utils.py:84-139 | a heading line is never a fence, table or list line, and never blank |
| `FileUtils.Kinds` | utils/file_utils.py:84-139 | one classification per line |
| `FileUtils.ScanFold` | utils/file_utils.py:84-139 | the section being filled is empty only before the first line, and every closed section holds lines |
| `FileUtils.Groups` | utils/file_utils.py:84-143 | there are no sections exactly when there are no lines, and no section is empty |
| `FileUtils.NoCutAtFirstLine` | utils/file_utils.py:127-139 | the first line never starts a new section |
| `FileUtils.ScanFoldFlatten` | utils/file_utils.py:84-139 | the closed sections followed by the open one are exactly the lines read so far |
| `FileUtils.GroupsFlatten` | utils/file_utils.py:84-143 | the sections, concatenated, are exactly the lines |
| `FileUtils.SectioningLossless` | utils/file_utils.py:75-143 | joining the sections with newlines gives back the document |
| `FileUtils.InCodeIffOddFences` | utils/file_utils.py:86-89 | the scan is inside a code block exactly when an odd number of fence lines came before |
| `FileUtils.CutRule` | utils/file_utils.py:127-139 | a line starts a new section exactly when it is not the first, lies outside code, and is a heading no deeper than the current level or the first heading |
| `FileUtils.SectionsOpenWithHeadings` | utils/file_utils.py:127-139 | every section after the first opens with a heading |
| `FileUtils.ScanSections` | utils/file_utils.py:84-143 | the line loop yields the sections of the specification, each joined with newlines |
| `FileUtils.FeedAll` | utils/file_utils.py:197-206 | the greedy packer holds a part in progress exactly when it has been fed, and never closes an empty part |
| `FileUtils.PackGroups` | utils/file_utils.py:183-196 | greedy packing never yields an empty group |
| `FileUtils.FeedAllBudget` | utils/file_utils.py:197-206 | every part the greedy packer closes stays within the budget, unless it is a single text |
| `FileUtils.PackGroupsBudget` | utils/file_utils.py:183-196 | every packed group is within the budget or a single text |
| `FileUtils.FeedMaximal` | utils/file_utils.py:197-206 | a part is closed only when the next text would take it over the budget |
| `FileUtils.FeedAllMaximal` | utils/file_utils.py:197-206 | every closed part is maximal: its length plus the first text of the next part exceeds the budget |
| `FileUtils.PackGroupsMaximal` | utils/file_utils.py:183-196 | packed groups are maximal |
| `FileUtils.PackGroupsFlatten` | utils/file_utils.py:183-196 | packing keeps every text, in order |
| `FileUtils.ParaFold` | utils/file_utils.py:165-177 | no closed paragraph is empty |
| `FileUtils.NonBlank` | utils/file_utils.py:165-177 | only non-blank lines remain |
| `FileUtils.ParaFoldFlatten` | utils/file_utils.py:165-177 | the paragraphs, concatenated, are exactly the non-blank lines of the section |
| `FileUtils.ParagraphLines` | utils/file_utils.py:165-177 | joining the paragraphs yields the non-blank lines joined by newlines |
| `FileUtils.SectionFold` | utils/file_utils.py:150-206 | the part loop never closes an empty part |
| `FileUtils.PartGroups` | utils/file_utils.py:150-210 | no part is empty |
| `FileUtils.SectionFoldBudget` | utils/file_utils.py:150-206 | every part the loop closes is within the budget or made of one text |
| `FileUtils.PartsWithinBudget` | utils/file_utils.py:150-210 | every part is within the budget or made of one text |
| `FileUtils.SectionFoldFlatten` | utils/file_utils.py:150-206 | the parts hold every fitting section and every paragraph of every oversized section, in order |
| `FileUtils.PartsFlatten` | utils/file_utils.py:150-210 | the parts, concatenated, are exactly those pieces |
| `FileUtils.FittingSections` | utils/file_utils.py:197-210 | when no section is oversized, the parts are the greedy packing of the sections, and joining the parts gives back the sections joined by blank lines |
| `FileUtils.SplitParagraphs` | utils/file_utils.py:165-177 | the paragraph loop yields the paragraphs of the specification |
| `FileUtils.PackParagraphs` | utils/file_utils.py:183-196 | the sub-part loop yields the greedy packing of the paragraphs |
| `FileUtils.PackSections` | utils/file_utils.py:150-210 | the part loop yields the parts of the specification |
| `FileUtils.SplitContent` | utils/file_utils.py:59-219 | the parts of the specification, and a document within the budget is a single part |
| `PromptHints.Jaccard` | utils/prompt_utils.py:195-227 | the Jaccard index lies between 0 and 1 |
| `PromptHints.JaccardSymmetric` | utils/prompt_utils.py:195-227 | the Jaccard index does not depend on the order of its arguments |
| `PromptHints.JaccardOne` | utils/prompt_utils.py:182-191 | the index is 1 exactly when the two sets are equal |
| `PromptHints.WordChars` | utils/prompt_utils.py:216-217 | the cleaned text is no longer than the input and keeps only letters, digits and whitespace |
| `PromptHints.WordCharsKeepsWords` | utils/prompt_utils.py:216-217 | a text made only of letters, digits and whitespace is kept whole |
| `PromptHints.SpanishLettersKept` | utils/prompt_utils.py:216-217 | accented Latin letters such as `ñ` and `á` count as letters |
| `PromptHints.Similarity` | utils/prompt_utils.py:159-231 | similarity lies between 0 and 1; it is 0 when either text is empty and 1 for two equal non-empty texts |
| `PromptHints.SimilaritySymmetric` | utils/prompt_utils.py:159-231 | similarity does not depend on the order of the texts |
| `PromptHints.ShortTextsSimilarity` | utils/prompt_utils.py:182-191 | when either text has fewer than three words, similarity is the word-set Jaccard index and is 1 exactly when the word sets agree |
| `PromptHints.SavedAppendsOrKeeps` | utils/prompt_utils.py:75-157 | saving either leaves the file unchanged or appends the stripped issue to the existing entries |
| `PromptHints.SavedIffFresh` | utils/prompt_utils.py:101-152 | the file changes exactly when the stripped issue is complete, the file is missing or holds a list, and no entry makes the issue redundant |
| `PromptHints.SavedIntoMissing` | utils/prompt_utils.py:144-152 | a complete issue saved where no file exists becomes the only entry |
| `PromptHints.SavedIntoHints` | utils/prompt_utils.py:144-152 | a complete issue that no entry makes redundant is appended |
| `PromptHints.SavedWhenRedundant` | utils/prompt_utils.py:113-141 | an issue that an entry already covers is not saved |
| `PromptHints.IncompleteNeverSaved` | utils/prompt_utils.py:106-108 | an issue with a blank original, translation or reason is never saved |
| `PromptHints.SaveIdempotent` | utils/prompt_utils.py:113-152 | saving the same issue twice is the same as saving it once |
| `PromptHints.LastTen` | utils/prompt_utils.py:57 | the last ten entries, or all of them when there are fewer |
| `PromptHints.HintTextEmptyUnlessHints` | utils/prompt_utils.py:27-73 | the hint text is empty exactly when there is no readable, non-empty list; otherwise it opens with the header |
| `PromptHints.OnlyLastTenRendered` | utils/prompt_utils.py:57-66 | entries older than the last ten never reach the prompt |
| `PromptHints.LastTenOfSuffix` | utils/prompt_utils.py:57 | the last ten of a list depend only on its last ten entries |
| `PromptHints.SavedIssueRendered` | utils/prompt_utils.py:27-152 | once saved, an issue is the last entry the hint text shows, and its entry is not empty |
| `PromptHints.LastRendered` | utils/prompt_utils.py:55-66 | the hint text ends with the entry of the newest improvement |
| `PromptHints.HintStore.constructor` | utils/prompt_utils.py:36-46 | a store for the given files |
| `PromptHints.HintStore.Save` | utils/prompt_utils.py:75-157 | the language's file becomes the saved file; no other language's file changes |
| `PromptHints.HintStore.Load` | utils/prompt_utils.py:27-73 | the text the store's file for the language renders |
| `PromptHints.FindRedundant` | utils/prompt_utils.py:113-141 | the scan finds a redundant entry exactly when the specification says one exists |
| `PromptHints.RenderEntries` | utils/prompt_utils.py:57-66 | the rendering loop yields the specified entries |
| `PromptHints.AppendEntry` | utils/prompt_utils.py:58-66 | one entry is appended to the text |
| `PromptHints.IsRedundant` | utils/prompt_utils.py:119-138 | the test for one entry agrees with its specification |
| `Translator.TermLine` | utils/translator.py:47-56 | a glossary or previous-term line is never empty |
| `Translator.GlossaryLinesEmpty` | utils/translator.py:47-50 | the glossary block is empty exactly when no entry translates into the language |
| `Translator.GlossaryListsEntry` | utils/translator.py:47-50 | every entry that translates into the language is listed |
| `Translator.EnhancedPromptFrame` | utils/translator.py:39-62 | the prompt sent starts with the system prompt and ends with the improvement hints |
| `Translator.EnhancedPromptListsEntry` | utils/translator.py:39-62 | the prompt sent lists every glossary entry for the language |
| `Translator.TermsBlockEmpty` | utils/translator.py:53-56 | the previous-terms block is empty exactly when no term has been remembered |
| `Translator.BuildGlossaryBlock` | utils/translator.py:39-56 | the glossary block fails exactly when some entry has null translations; otherwise it is the specified block |
| `Translator.ListGlossary` | utils/translator.py:47-50 | the glossary loop fails exactly when some glossary entry has null translations; otherwise it lists the specified lines |
| `Translator.LoadableIffMappings` | utils/translator.py:47-50 | the loop's running condition holds exactly when every entry so far has a translation map |
| `Translator.NullNotLoadable` | utils/translator.py:47-50 | one null translation makes the glossary unusable |
| `Translator.ListTerms` | utils/translator.py:53-56 | the previous-terms loop yields the specified block |
| `Translator.AnswerLabelsColonFree` | utils/translator.py:89-90 | no reply label contains a colon |
| `Translator.ColonAfterLabel` | utils/translator.py:89-90 | in a reply that opens with a label and a colon, in any case, the first colon is the label's |
| `Translator.DropOpeningFence` | utils/translator.py:93 | removing an opening fence keeps a suffix of the reply |
| `Translator.DropClosingFence` | utils/translator.py:94 | removing a closing fence never lengthens the reply |
| `Translator.CutLabelAt` | utils/translator.py:89-90 | a reply opening with a label loses the label and the colon, and is stripped |
| `Translator.FencedReplyUnwrapped` | utils/translator.py:93-94 | a reply wrapped in a code fence yields the fenced text |
| `Translator.OpeningFenceLine` | utils/translator.py:93 | an opening fence is removed together with its info string and newline |
| `Translator.PlainReplyKept` | utils/translator.py:89-94 | a reply with no label and no fence is kept as is |
| `Translator.ClosingFenceRemoved` | utils/translator.py:94 | only the closing fence is removed |
| `Translator.AddTermsExtends` | utils/translator.py:108-120 | remembered terms are kept, and new ones come after them |
| `Translator.AddTermsDistinct` | utils/translator.py:108-120 | no term is remembered twice |
| `Translator.AddTermsSound` | utils/translator.py:108-120 | every newly remembered term comes from a glossary entry that occurs in the text and translates into the language |
| `Translator.AddTermsComplete` | utils/translator.py:108-120 | every glossary term that occurs in the text and translates into the language ends up remembered |
| `Translator.AddTermKeeps` | utils/translator.py:112-120 | a term once remembered stays remembered |
| `Translator.FailedCallKeepsText` | utils/translator.py:67-106 | when the service gives no answer, the text comes back untranslated or the call raises, and the context's terms and part number do not change |
| `Translator.SuccessfulCallAdvances` | utils/translator.py:67-100 | after an answer the part number advances by one, the tokens grow by those used, and the remembered terms are extended |
| `Translator.RaisesIffNullTerm` | utils/translator.py:24-106 | translation raises exactly when the glossary has an entry with null translations |
| `Translator.Context.constructor` | utils/translator.py:39-44 | a fresh context has no terms, is at part 1 and has used no tokens |
| `Translator.Translator.constructor` | utils/translator.py:10-22 | a translator for the given client, model and glossary, with no tokens counted |
| `Translator.Translator.TranslateText` | utils/translator.py:24-106 | the outcome, the context's new state and the tokens added are those of the specification; a missing context is replaced by a fresh one |
| `Translator.Translator.UpdateTranslatedTerms` | utils/translator.py:108-120 | the context's terms become the specified extension, and nothing else in the context changes |
| `Translator.Translator.GetTotalTokens` | utils/translator.py:122-129 | the tokens counted so far |
| `Translator.RememberTerms` | utils/translator.py:112-120 | the term loop yields the specified terms |
| `Translator.RememberTerm` | utils/translator.py:113-120 | one entry is handled as specified |
| `FrontmatterTranslation.FieldPrompt` | utils/prompt_utils.py:271-277 | the field prompt names the target language after its opening line and closes with the single-line instructions |
| `FrontmatterTranslation.YamlText` | utils/prompt_utils.py:251-254 | the YAML text is never longer than the frontmatter, and a frontmatter without `---` is handed over stripped |
| `FrontmatterTranslation.MarkersRemoved` | utils/prompt_utils.py:251-254 | the YAML text is the stripped content between the two markers |
| `FrontmatterTranslation.Tidy` | utils/prompt_utils.py:290-301 | a translated field value never contains a newline |
| `FrontmatterTranslation.FieldFacts` | utils/prompt_utils.py:266-306 | a translated field is a single line, and it fails exactly when some glossary entry has null translations |
| `FrontmatterTranslation.EntriesShape` | utils/prompt_utils.py:266-306 | translation keeps the keys and their order, keeps every value that is not text, and makes every text value a single line |
| `FrontmatterTranslation.EntriesFailIff` | utils/prompt_utils.py:266-306 | translating the entries fails exactly when a field fails and some value is text |
| `FrontmatterTranslation.NothingToTranslate` | utils/prompt_utils.py:257-262 | a frontmatter that is not a mapping, or is an empty one, is kept unchanged and costs no tokens |
| `FrontmatterTranslation.FrontmatterResult` | utils/prompt_utils.py:233-317 | the original frontmatter is kept when a field fails; otherwise the result is the dumped entries between markers, with the same keys, the non-text values kept and single-line translations |
| `FrontmatterTranslation.TranslateFrontmatter` | utils/prompt_utils.py:233-317 | the result and the tokens counted are those of the specification |
| `FrontmatterTranslation.TranslateWith` | utils/prompt_utils.py:266-317 | the field loop yields the specified text and token count |
| `FrontmatterTranslation.AbortPersists` | utils/prompt_utils.py:314-317 | once a field fails, the rest of the frontmatter does not change the outcome |
| `Pipeline.JoinPath` | main_target.py:64-66 | an absolute second path wins; otherwise the result ends with it |
| `Pipeline.DropRegions` | main_target.py:91-95 | removing regions never lengthens the text, and a text without an opening marker is kept |
| `Pipeline.RegionRemoved` | main_target.py:91-95 | a region between the opening and closing markers is removed, markers included |
| `Pipeline.LocalRegionRemoved` | main.py:63-64 | a local-text region is removed with its markers |
| `Pipeline.DropLocalText` | main.py:63-64 | removing the local text never lengthens the document, and a document without an opening marker is kept |
| `Pipeline.NoBraceFirstAtEnd` | main_target.py:91-95 | a text without braces cannot run into a marker that opens with `{` |
| `Pipeline.OpenFound` | main_target.py:91-95 | the search for the opening marker stops at the first one |
| `Pipeline.CloseFound` | main_target.py:91-95 | the non-greedy match ends at the first closing marker after the opening one |
| `Pipeline.RegionStep` | main_target.py:91-95 | the first region is cut out, markers included, and the text before it is kept |
| `Pipeline.RegionsRemoved` | main_target.py:91-95 | every marked region is cut out and the text between regions is kept in order, whatever braces it holds |
| `Pipeline.TwoRegionsRemoved` | main_target.py:91-95 | two regions are cut out, leaving the three texts around them |
| `Pipeline.TwoLocalRegionsRemoved` | main.py:63-64 | two local-text regions are removed with their markers |
| `Pipeline.PartsFold` | main_target.py:117-127 | one outcome per translated part |
| `Pipeline.PartsFoldNone` | main_target.py:115-117 | translating no parts leaves the context and the tokens unchanged |
| `Pipeline.PartsFoldNext` | main_target.py:117-127 | each part is translated with the context the previous parts left |
| `Pipeline.PartApplied` | main_target.py:121 | each part goes through `translate_text` |
| `Pipeline.PartsFoldPrefix` | main_target.py:117-127 | later parts do not change the outcomes of earlier ones |
| `Pipeline.PartsRaiseIffNullTerm` | main_target.py:117-127 | when every glossary entry has translations, every part is translated; otherwise every part raises and no tokens are used |
| `Pipeline.Decimal` | main_target.py:124 | a non-empty string of digits |
| `Pipeline.DecimalRoundTrip` | main_target.py:124 | the digits read back as the number |
| `Pipeline.TranslateFront` | main_target.py:101-109 | a non-empty frontmatter is translated as specified; any other is kept |
| `Pipeline.TargetLanguages` | main_target.py:252-255 | `all` means en, es and zh, each once; any other choice is itself |
| `MainTarget.TargetsHaveDirectories` | main_target.py:22-27 | every target language has a directory and is not the source language |
| `MainTarget.OutputPath` | main_target.py:64-66 | the output path ends with the relative path |
| `MainTarget.ShouldTranslateIgnoresCase` | main_target.py:72 | the markdown test does not depend on the case of the path |
| `MainTarget.UpperCaseExtensionTranslated` | main_target.py:72 | a `.MD` file is translated |
| `MainTarget.BinaryCopied` | main_target.py:72-77 | a file that looks binary is never translated |
| `MainTarget.PartFailureNamesPart` | main_target.py:124-127 | a failed part's placeholder names its number, counted from 1 |
| `MainTarget.Marked` | main_target.py:117-127 | one piece per part: the translation, or the placeholder naming the failed part |
| `MainTarget.MarkedSnoc` | main_target.py:117-127 | each part's piece depends only on its own outcome |
| `MainTarget.PlaceholdersIffNullTerm` | main_target.py:117-130 | when every glossary entry has translations, every piece is a translation; otherwise every piece is a placeholder and no tokens are used |
| `MainTarget.SmallDocument` | main_target.py:98-134 | a document within the budget and without frontmatter is translated as a single part |
| `MainTarget.ProcessedFailsIff` | main_target.py:32-152 | processing fails exactly when the language has no directory, the target cannot be written, or a markdown file cannot be read; a failure writes nothing; otherwise a non-markdown file is copied and a markdown file is written |
| `MainTarget.ProcessedTargets` | main_target.py:64-77 | a copy takes the source file and costs no tokens; whatever is written lands at the relative path |
| `MainTarget.TranslateParts` | main_target.py:115-127 | the part loop yields the specified pieces and adds the specified tokens |
| `MainTarget.TranslateBody` | main_target.py:112-127 | the split body is translated as specified |
| `MainTarget.TranslateDocument` | main_target.py:91-134 | the written document and the tokens added are those of the specification |
| `MainTarget.ProcessChangedFile` | main_target.py:32-152 | the result, the file action and the tokens added are those of the specification |
| `MainTarget.Tasks` | main_target.py:277-295 | there are never more tasks than changed files |
| `MainTarget.TasksMembers` | main_target.py:277-295 | a path is a task exactly when it changed and still exists in the source directory |
| `MainTarget.AllTasksIff` | main_target.py:277-295 | every changed file is a task exactly when all of them still exist |
| `MainTarget.CollectTasks` | main_target.py:277-295 | the task loop yields the specified tasks |
| `MainTarget.Tally` | main_target.py:298-315 | successes and failures add up to the tasks tallied, with one action per task |
| `MainTarget.TallyExactly` | main_target.py:298-315 | the failed list is exactly the tasks that failed, and each file action is its task's |
| `MainTarget.RunTasks` | main_target.py:298-320 | the tally of the task loop matches the specification, tokens included |
| `MainTarget.RunLanguage` | main_target.py:267-320 | the counts, failures, tokens and actions for one language are those of the specification |
| `MainTarget.SummaryCounts` | main_target.py:267-336 | successes plus failures are the languages times the tasks |
| `MainTarget.SummaryFailures` | main_target.py:310-335 | failures are recorded for every language handled and for no other, each with that language's list |
| `MainTarget.AttemptsWithinReported` | main_target.py:277-336 | the attempts made never exceed the reported total, and match it exactly when every changed file still exists |
| `MainTarget.TranslateChanged` | main_target.py:267-336 | the totals for the languages given are those of the specification |
| `MainTarget.TranslateBook` | main_target.py:252-336 | the run over the languages chosen on the command line, with each language's system prompt, yields the specified totals |
| `GitUtils.PosixPath` | utils/git_utils.py:24 | `Path(p).as_posix()` is never empty: an empty path reads as `.` |
| `GitUtils.PosixPathIdempotent` | utils/git_utils.py:81 | a path already in POSIX form is left as it is |
| `GitUtils.SplitJoin` | utils/git_utils.py:81 | slash-free components joined by `/` split back into the same components |
| `GitUtils.DoubledSlash` | utils/git_utils.py:81 | a doubled slash between two components is read as one |
| `GitUtils.LeadingDot` | utils/git_utils.py:81 | a leading `./` is dropped |
| `GitUtils.CleanSubdir` | utils/git_utils.py:24-26 | the directory in POSIX form neither starts nor ends with `/` |
| `GitUtils.CleanSubdirNormalises` | utils/git_utils.py:24-26 | `docs//ru` is cleaned to `docs/ru` and `./docs` to `docs` |
| `GitUtils.WithoutRepoPrefix` | utils/git_utils.py:85-88 | a leading repository name is removed, and any other path is kept |
| `GitUtils.RelativeTo` | utils/git_utils.py:92-98 | the path below the directory, or `.` for the directory itself |
| `GitUtils.Keep` | utils/git_utils.py:77-98 | taking the path of a line never raises, and a kept path is in POSIX form |
| `GitUtils.PathLineAsWritten` | utils/git_utils.py:61-75 | as written, a line raises exactly when it is not blank and has fewer than two whitespace fields; a blank line is skipped |
| `GitUtils.PathLine` | utils/git_utils.py:61-75 | as intended, a line raises exactly when it is not blank and nothing follows its status; a blank line is skipped |
| `GitUtils.RenameLineStart` | utils/git_utils.py:61-75 | the rename line is not blank |
| `GitUtils.RenameWords` | utils/git_utils.py:65 | splitting a rename line at whitespace gives the status and then the old path |
| `GitUtils.AsWrittenFromWords` | utils/git_utils.py:65-78 | the path taken as written is the second whitespace field |
| `GitUtils.RenameYieldsSource` | utils/git_utils.py:65-78 | as written, a rename line yields its old path |
| `GitUtils.ArrowSplitNeverTwo` | utils/git_utils.py:69-75 | a whitespace-free field never splits at ` -> ` into two |
| `GitUtils.RenameYieldsDestination` | utils/git_utils.py:61-98 | as intended, a rename line yields its new path |
| `GitUtils.AsWrittenPlain` | utils/git_utils.py:65-67 | as written, a line of any status but `R` and `C` yields its second whitespace field |
| `GitUtils.IntendedPlain` | utils/git_utils.py:65-67 | as intended, a line of any status but `R` and `C` yields everything after the status |
| `GitUtils.UntrackedWords` | utils/git_utils.py:65 | splitting `?? x y` at whitespace gives `??`, then `x` |
| `GitUtils.SpacedPathTruncated` | utils/git_utils.py:65-78 | as written, the quoted untracked path `"x y"` yields only `"x` |
| `GitUtils.SpacedPathWhole` | utils/git_utils.py:65-78 | as intended, the quoted untracked path `"x y"` yields `x y` |
| `GitUtils.LineResults` | utils/git_utils.py:61-100 | one result per output line, each that line's result by the loop body as written |
| `GitUtils.IntendedLineResults` | utils/git_utils.py:61-100 | one result per output line, each that line's result by the loop body as intended |
| `GitUtils.CollectRaisesIff` | utils/git_utils.py:115-131 | the scan fails exactly when some line has too few fields |
| `GitUtils.CollectedExactly` | utils/git_utils.py:61-100 | a path is collected exactly when some line keeps it |
| `GitUtils.ChangedSet` | utils/git_utils.py:21-131 | a missing directory or a failed `git` gives the empty result; output without lines gives the empty set |
| `GitUtils.ChangedSetIntended` | utils/git_utils.py:21-131 | the same for the loop body as intended |
| `GitUtils.ChangedSetExactly` | utils/git_utils.py:61-131 | as written, the scan fails exactly when a non-blank line has fewer than two fields, and otherwise holds exactly the paths the lines keep |
| `GitUtils.ChangedSetIntendedExactly` | utils/git_utils.py:61-131 | as intended, the scan fails exactly when a non-blank line has nothing after its status, and otherwise holds exactly the paths the lines keep |
| `GitUtils.ScanLines` | utils/git_utils.py:61-100 | the line loop yields the specified set |
| `GitUtils.CrashPersists` | utils/git_utils.py:115-131 | once a line fails, the whole scan fails |
| `GitUtils.GetChangedFilesInDir` | utils/git_utils.py:7-131 | the result is strictly sorted and holds exactly the paths the as-written line loop collects below the directory, or nothing when the directory or the output is missing or a line fails |
| `Validate.ValidationSystemPrompt` | validate.py:43-49 | the validation prompt opens with the system prompt and the glossary lines and closes with the JSON-only instruction |
| `Validate.UserMessage` | validate.py:53-78 | the request opens with the original text, carries the target language right before the translation, and closes with the file path and the JSON template |
| `Validate.FlaggedBeforeIff` | validate.py:120-127 | the false-positive loop flags an issue exactly when some glossary entry cites it |
| `Validate.DroppedIff` | validate.py:117-131 | an issue is dropped exactly when a glossary entry makes it a false positive, or its original or translation is shorter than three characters, or it has no reason |
| `Validate.SurvivorsAppend` | validate.py:110-139 | filtering a concatenation filters each half |
| `Validate.SurvivorsExactly` | validate.py:110-139 | an issue survives exactly when it is not dropped, and it survives stamped with the file |
| `Validate.SurvivorsStamped` | validate.py:110-139 | every surviving issue carries the file path and is not dropped |
| `Validate.SurvivorsIdempotent` | validate.py:110-139 | filtering the survivors again changes nothing |
| `Validate.SaveAllKeepsExisting` | validate.py:139 | saving the survivors keeps every existing hint, in front |
| `Validate.ValidateFallbacks` | validate.py:19-151 | validation fails exactly when some glossary entry has null translations; a service error yields no issues and no tokens |
| `Validate.ValidateReportsSurvivors` | validate.py:110-142 | every reported issue carries the file path and was not dropped |
| `Validate.TokenCounter.constructor` | validate.py:17 | the counter starts at zero |
| `Validate.ValidateTranslation` | validate.py:19-151 | the issues and tokens are those of the specification with the language's validation prompt; the survivors are saved as hints for the language only |
| `Validate.ValidateWith` | validate.py:44-151 | the same, for a given system prompt |
| `Validate.Interpret` | validate.py:94-107 | the issues and tokens read from a reply are those specified |
| `Validate.FilterIssues` | validate.py:110-139 | the filter loop keeps the survivors and saves them for the language only |
| `Validate.IsDropped` | validate.py:117-131 | the drop test agrees with its specification |
| `Validate.IsFalsePositive` | validate.py:120-127 | the false-positive loop agrees with its specification |
| `Validate.FlaggedPersists` | validate.py:120-127 | once flagged, an issue stays flagged for the rest of the glossary |
| `Validate.ValidateFile` | validate.py:153-201 | a missing file yields no result and changes nothing; otherwise the file pair is validated as specified, the survivors are saved to that language's hint file and the other languages' files are untouched |
| `Validate.GatheredExactly` | validate.py:215-218 | an issue is in the report exactly when some file result holds it |
| `Validate.GatheredAppend` | validate.py:215-218 | gathering a concatenation gathers each half |
| `Validate.ReportFileName` | validate.py:229-230 | a given non-empty name is used, otherwise `validation_report_<lang>.json` |
| `Validate.CreateValidationReport` | validate.py:203-249 | the report holds the gathered issues, the language, the number of files and the number of issues |
| `MainScript.MaxTokensChoice` | main.py:195 | a non-zero command-line budget wins; without one or a settings file the budget is 8000 |
| `MainScript.MaxTokens` | main.py:195 | a non-zero command-line budget wins; otherwise the configured `max_tokens` when there is one, and 8000 when there is none |
| `MainScript.StrictAbortPersists` | main.py:88-91 | once a part raises, the document's translation has failed whatever follows |
| `MainScript.StrictAgreesWithParts` | main.py:88-91 | the strict loop succeeds exactly when every part is translated, and then yields the same texts and tokens |
| `MainScript.StrictFailsIffNullTerm` | main.py:88-91 | the strict loop fails exactly when some glossary entry has null translations and there is a part |
| `MainScript.TranslatePartsStrict` | main.py:82-91 | the strict part loop yields the specified texts and tokens |
| `MainScript.TextsArePieces` | main.py:88-94 | when no part raises, the strict loop's texts are the pieces the other driver writes |
| `MainScript.SameDocumentWhenNoneRaise` | main.py:58-102 | when no part raises, both drivers produce the same document and tokens |
| `MainScript.StrictDocumentFailsIff` | main.py:63-98 | translating a document fails exactly when some glossary entry has null translations and the body has a part |
| `MainScript.TranslateDocument` | main.py:63-98 | the document and tokens are those of the specification |
| `MainScript.OutputFile` | main.py:39-40 | the output path ends with the relative path |
| `MainScript.FileFailsIff` | main.py:21-109 | processing fails exactly when the target cannot be written, or a markdown file cannot be read or translated; a failure writes nothing; otherwise only markdown is written and the rest is copied at no token cost |
| `MainScript.FileTargets` | main.py:39-102 | whatever is written or copied lands at the relative path |
| `MainScript.UpperCaseExtensionCopied` | main.py:51-55 | a `.MD` file is copied, not translated, whereas the changed-files driver translates it |
| `MainScript.MarkdownAlsoTranslated` | main.py:50-55 | a file this script translates by its `.md` or `.mdx` name is translated by the book's script too |
| `MainScript.ProcessFile` | main.py:21-109 | the result, the file action and the tokens added are those of the specification |
| `MainScript.Walked` | main.py:140-148 | at most one success per file, and one action per file |
| `MainScript.WalkedCounts` | main.py:140-148 | all files succeed exactly when each does, none exactly when none does, and each action is its file's |
| `MainScript.ProcessDirectory` | main.py:111-152 | the success count, tokens and actions of the walk are those of the specification |
| `MainScript.RunLanguage` | main.py:111-152 | one language's successes and tokens are those of the specification |
| `MainScript.TotalTokensConcat` | main.py:236-237 | the total over two runs of languages is the sum of their totals |
| `MainScript.TotalTokensCovers` | main.py:236-237 | the total covers every language's tokens |
| `MainScript.SummedAll` | main.py:233-237 | the language loop sums exactly every language's tokens and records each success count |
| `MainScript.TranslateLanguages` | main.py:233-237 | the specified total and one success count per language |
| `MainScript.TranslateAll` | main.py:199-243 | a missing input directory translates nothing; otherwise every chosen language is run with its system prompt |

## Left out

- Concurrency: both drivers submit files to a thread pool and read results as they complete. The model runs the files one after another in list order, and results are tallied in that order.
- Directory creation, file reading and writing, `shutil.copy2`, and the binary-file test: a file is a `SourceFile` value, and writes and copies are returned as `Action` values, not performed.
- Exceptions raised outside the model: the text of an exception that a file step would report is the `error` parameter.
- The early exits of `main_target.py` are not modelled (lines 184-245): a missing or invalid `BOOK_PATH`, a failed `git` check, a missing source directory entry, no changed files, and a failed client set-up.
- `MainTarget.AttemptsWithinReported`: the source reports `len(changed) * len(languages)` attempts, which counts changed files that no longer exist as processed. The lemma relates the two numbers rather than equating them.
- `os.walk` and its order: the list of files of `main.py` is the `allFiles` parameter, in walk order.
- `validate_translations`, the file walk of `validate.py` (lines 251-331), is not modelled.
- The command-line parsing, `print`, and logging through `utils/logger.py`.
- The wording of the prompts is kept as string constants. Only their layout and the language they name are proved about.
- The local-text pattern of both drivers is a regular expression over the literal markers. The model removes the literal markers and what lies between them, and does not model whitespace or case variants of the markers.
- YAML and JSON: `yaml.safe_load`, `yaml.dump` and `json.loads` are function parameters. A frontmatter is an ordered list of key and value pairs, and the default `max_workers` setting is kept but unused.
- The OpenAI client is a function from a request to a reply. Its call options, such as the temperature, are not modelled.
- A JSON issue whose fields are `null` rather than strings is not modelled: issues are records of strings.
- `get_improvements_dir` and the file paths of the hint store: the store is a map from language to the file's contents.
- `Translator.Translator.UpdateTranslatedTerms`: requires a glossary whose entries all have translation maps. In the source, `translate_text` only calls it after building the glossary block, which already succeeded on such a glossary.
- `Strings.Lower` folds the capitals of ASCII, Latin-1, Latin Extended-A and the Cyrillic block U+0400–U+042F. It does not fold the dotted `İ` (U+0130, which `str.lower` turns into two characters), the paired Cyrillic capitals from U+0460 on (such as `Ѣ` U+0462 and `Ґ` U+0490), Latin Extended-B, Greek, or any other script.
- `PromptHints.WordChars`: `str.isalnum` is modelled on ASCII, the letters and digits of Latin-1, Latin Extended-A and -B, Cyrillic, and the CJK unified ideographs U+4E00–U+9FFF. Letters and digits of other scripts, such as Greek, Arabic or the CJK extension blocks, are dropped by the model but kept by the source.
- `PromptHints.Similarity`: Python's floating-point numbers are exact reals here, so the rounding of the 0.7 and 0.3 weights and of the division is not modelled. A similarity within rounding distance of the 0.7 or 0.6 thresholds of `save_prompt_improvement` may be decided differently. On text in a script outside the one `WordChars` covers, the character term differs from the source as well.
- `GitUtils.Keep`: `os.path.relpath` (utils/git_utils.py:96) also resolves `..` components, which the model keeps. For an absolute path it works from the current directory, which the model does not know. `git status` prints neither kind of path.
- `GitUtils.PosixPath`: `pathlib` is modelled with POSIX rules; the backslash separators of a Windows system are not.
- `GitUtils.GetChangedFilesInDir` keeps the line loop as written. `GitUtils.ChangedSetIntended` states the intended loop, and the Findings below compare the two line by line.

## Findings

| source | as written | input that shows it | evidently intended | confidence | as-written member | corrected member |
|---|---|---|---|---|---|---|
| utils/git_utils.py:65-72 | `line.split(maxsplit=2)` takes the second whitespace field as the path, so the ` -> ` split of a rename line can never see two paths | the status line `R  docs/a.md -> docs/b.md` yields `a.md`, the file that no longer exists | a rename or copy yields its new path, `b.md` | not executed | `GitUtils.RenameYieldsSource` | `GitUtils.RenameYieldsDestination` |
| utils/git_utils.py:65-78 | the second whitespace field of `?? "docs/a b.md"` is `"docs/a`, so the quote stripping at line 78 never sees a whole quoted path | the status line `?? "docs/a b.md"` yields `a` | the path after the status, `a b.md` | not executed | `GitUtils.SpacedPathTruncated` | `GitUtils.SpacedPathWhole` |
