/** The translator of `utils/translator.py`: one chat-completion call per text, with the
    glossary and the terms already used in the document appended to the system prompt,
    the reply cleaned of labels and code fences, and token counters kept on the
    translator and on the per-document context.

    The chat service is the function `client` from a request to a reply; a reply
    either carries a content (possibly missing) and the token usage, or is an error
    raised by the service. */
module Translator {
  import opened Wrappers
  import opened Strings
  import opened Config
  import opened PromptHints

  datatype Request = Request(model: string, system: string, user: string)

  datatype Reply =
    | Answer(content: Option<string>, promptTokens: nat, completionTokens: nat)
    | ServiceError

  /** What `translate_text` does with its caller: it returns a text, or lets an
      exception escape (a glossary term whose value is null). */
  datatype Outcome = Returned(text: string) | Raised

  /** The terms already translated in a document: a dictionary in insertion order. */
  type Terms = seq<(string, string)>

  predicate Known(terms: Terms, term: string) {
    exists i | 0 <= i < |terms| :: terms[i].0 == term
  }

  predicate DistinctKeys(terms: Terms) {
    forall i, j | 0 <= i < j < |terms| :: terms[i].0 != terms[j].0
  }

  // ---------------------------------------------------------------- the system prompt

  const GlossaryHeader := "\nГлоссарий терминов " + "(русский -> целевой язык):\n"

  const PreviousHeader := "\nПредыдущие переводы " + "терминов в этом документе:\n"

  /** One glossary line: both terms quoted, joined by an arrow, ended by a newline. */
  function TermLine(a: string, b: string): (r: string)
    ensures |r| > 0
  {
    "'" + a + "' -> '" + b + "'\n"
  }

  /** The glossary line of one entry, or nothing when it has no translation for `lang`. */
  function EntryLine(e: TermEntry, lang: string): string {
    if HasTranslation(e, lang) then TermLine(e.term, TranslationOf(e, lang)) else ""
  }

  /** The glossary lines of the first `n` entries. */
  function GlossaryLines(g: Glossary, lang: string, n: nat): string
    requires n <= |g|
  {
    if n == 0 then "" else GlossaryLines(g, lang, n - 1) + EntryLine(g[n - 1], lang)
  }

  /** The lines of the first `n` terms already translated in the document. */
  function TermLines(terms: Terms, n: nat): string
    requires n <= |terms|
  {
    if n == 0 then "" else TermLines(terms, n - 1) + TermLine(terms[n - 1].0, terms[n - 1].1)
  }

  function TermsBlock(terms: Terms): string {
    if terms == [] then "" else PreviousHeader + TermLines(terms, |terms|)
  }

  /** `glossary_prompt` once both loops have run. */
  function GlossaryBlock(g: Glossary, lang: string, terms: Terms): string {
    GlossaryHeader + GlossaryLines(g, lang, |g|) + TermsBlock(terms)
  }

  /** `enhanced_system_prompt`. */
  function EnhancedPrompt(system: string, g: Glossary, lang: string, terms: Terms, hints: string): string {
    system + GlossaryBlock(g, lang, terms) + hints
  }

  /** The glossary lines are empty exactly when no entry has a translation for `lang`. */
  lemma {:induction false} GlossaryLinesEmpty(g: Glossary, lang: string, n: nat)
    requires n <= |g|
    ensures GlossaryLines(g, lang, n) == "" <==> forall k :: 0 <= k < n ==> !HasTranslation(g[k], lang)
  {
    if n > 0 {
      GlossaryLinesEmpty(g, lang, n - 1);
      GlossaryLinesEmptyStep(g, lang, n);
      NoneTranslatedStep(g, lang, n);
    }
  }

  lemma GlossaryLinesEmptyStep(g: Glossary, lang: string, n: nat)
    requires 0 < n <= |g|
    ensures GlossaryLines(g, lang, n) == ""
            <==> GlossaryLines(g, lang, n - 1) == "" && !HasTranslation(g[n - 1], lang)
  {
    var e := g[n - 1];
    assert GlossaryLines(g, lang, n) == GlossaryLines(g, lang, n - 1) + EntryLine(e, lang);
    if HasTranslation(e, lang) {
      assert |EntryLine(e, lang)| > 0;
    }
  }

  lemma NoneTranslatedStep(g: Glossary, lang: string, n: nat)
    requires 0 < n <= |g|
    ensures (forall k :: 0 <= k < n ==> !HasTranslation(g[k], lang))
            <==> (forall k :: 0 <= k < n - 1 ==> !HasTranslation(g[k], lang)) && !HasTranslation(g[n - 1], lang)
  {
  }

  /** Every entry translated into `lang` is listed in the glossary lines. */
  lemma {:induction false} GlossaryListsEntry(g: Glossary, lang: string, n: nat, k: nat)
    requires k < n <= |g| && HasTranslation(g[k], lang)
    ensures Contains(GlossaryLines(g, lang, n), TermLine(g[k].term, TranslationOf(g[k], lang)))
  {
    if k == n - 1 {
      assert EntryLine(g[k], lang) == TermLine(g[k].term, TranslationOf(g[k], lang));
      LastLineListed(g, lang, n);
    } else {
      GlossaryListsEntry(g, lang, n - 1, k);
      EarlierLineListed(g, lang, n, TermLine(g[k].term, TranslationOf(g[k], lang)));
    }
  }

  lemma LastLineListed(g: Glossary, lang: string, n: nat)
    requires 0 < n <= |g|
    ensures Contains(GlossaryLines(g, lang, n), EntryLine(g[n - 1], lang))
  {
    ContainsSelf(GlossaryLines(g, lang, n - 1), EntryLine(g[n - 1], lang), "");
    assert GlossaryLines(g, lang, n - 1) + EntryLine(g[n - 1], lang) + "" == GlossaryLines(g, lang, n);
  }

  lemma EarlierLineListed(g: Glossary, lang: string, n: nat, p: string)
    requires 0 < n <= |g| && Contains(GlossaryLines(g, lang, n - 1), p)
    ensures Contains(GlossaryLines(g, lang, n), p)
  {
    ContainsWithin("", GlossaryLines(g, lang, n - 1), EntryLine(g[n - 1], lang), p);
    assert "" + GlossaryLines(g, lang, n - 1) + EntryLine(g[n - 1], lang) == GlossaryLines(g, lang, n);
  }

  /** The enhanced prompt keeps the caller's prompt in front and the hints at the end,
      and lists every glossary term translated into `lang`. */
  lemma EnhancedPromptFrame(system: string, g: Glossary, lang: string, terms: Terms, hints: string)
    ensures StartsWith(EnhancedPrompt(system, g, lang, terms, hints), system)
    ensures EndsWith(EnhancedPrompt(system, g, lang, terms, hints), hints)
  {
    var p := EnhancedPrompt(system, g, lang, terms, hints);
    var mid := GlossaryBlock(g, lang, terms);
    assert p == system + mid + hints;
    assert p[..|system|] == system;
    assert p[|p| - |hints|..] == hints;
  }

  lemma EnhancedPromptListsEntry(system: string, g: Glossary, lang: string, terms: Terms, hints: string, k: nat)
    requires k < |g| && HasTranslation(g[k], lang)
    ensures Contains(EnhancedPrompt(system, g, lang, terms, hints), TermLine(g[k].term, TranslationOf(g[k], lang)))
  {
    GlossaryListsEntry(g, lang, |g|, k);
    ContainsWithin(system + GlossaryHeader, GlossaryLines(g, lang, |g|), TermsBlock(terms) + hints,
                   TermLine(g[k].term, TranslationOf(g[k], lang)));
    AppendAssociative(system, GlossaryHeader + GlossaryLines(g, lang, |g|), TermsBlock(terms));
    AppendAssociative(system, GlossaryHeader, GlossaryLines(g, lang, |g|));
    AppendAssociative(system + GlossaryHeader + GlossaryLines(g, lang, |g|), TermsBlock(terms), hints);
  }

  /** The block of previously translated terms appears exactly when there are some. */
  lemma TermsBlockEmpty(terms: Terms)
    ensures TermsBlock(terms) == "" <==> terms == []
  {
    if terms != [] {
      assert |TermsBlock(terms)| >= |PreviousHeader| > 0;
    }
  }

  // ---------------------------------------------------------------- building the prompt

  /** The glossary loop and the terms loop of `translate_text`: the block, or `None` when
      a term with a null value makes `target_language in translations` raise. */
  method BuildGlossaryBlock(g: Glossary, lang: string, terms: Terms) returns (r: Option<string>)
    ensures r.None? <==> !Loadable(g)
    ensures r.Some? ==> r.value == GlossaryBlock(g, lang, terms)
  {
    var lines := ListGlossary(g, lang);
    if lines.None? {
      return None;
    }
    var previous := ListTerms(terms);
    return Some(GlossaryHeader + lines.value + previous);
  }

  /** The glossary loop: its lines, or `None` at the first term with a null value. */
  method ListGlossary(g: Glossary, lang: string) returns (r: Option<string>)
    ensures r.None? <==> !Loadable(g)
    ensures r.Some? ==> r.value == GlossaryLines(g, lang, |g|)
  {
    var lines := "";
    var i := 0;
    while i < |g|
      invariant 0 <= i <= |g|
      invariant MappingsBefore(g, i)
      invariant lines == GlossaryLines(g, lang, i)
    {
      if g[i].translations.Null? {
        NullNotLoadable(g, i);
        return None;
      }
      lines := AppendEntryLine(lines, g[i], lang);
      i := i + 1;
    }
    LoadableIffMappings(g, |g|);
    return Some(lines);
  }

  /** The first `n` terms have mapping values. */
  predicate MappingsBefore(g: Glossary, n: nat)
    requires n <= |g|
  {
    n == 0 || (MappingsBefore(g, n - 1) && g[n - 1].translations.Mapping?)
  }

  lemma {:induction false} LoadableIffMappings(g: Glossary, n: nat)
    requires n <= |g|
    ensures MappingsBefore(g, n) <==> forall k :: 0 <= k < n ==> g[k].translations.Mapping?
  {
    if n > 0 {
      LoadableIffMappings(g, n - 1);
    }
  }

  lemma NullNotLoadable(g: Glossary, i: nat)
    requires i < |g| && g[i].translations.Null?
    ensures !Loadable(g)
  {
  }

  /** The loop over the terms already translated in the document, under its header. */
  method ListTerms(terms: Terms) returns (r: string)
    ensures r == TermsBlock(terms)
  {
    r := "";
    if terms != [] {
      var j := 0;
      while j < |terms|
        invariant 0 <= j <= |terms|
        invariant r == TermLines(terms, j)
      {
        r := AppendTermLine(r, terms[j]);
        j := j + 1;
      }
      r := PreviousHeader + r;
    }
  }

  method AppendEntryLine(lines: string, e: TermEntry, lang: string) returns (r: string)
    ensures r == lines + EntryLine(e, lang)
  {
    r := lines;
    if e.translations.Mapping? && lang in e.translations.byLanguage {
      r := lines + TermLine(e.term, e.translations.byLanguage[lang]);
    }
  }

  method AppendTermLine(lines: string, t: (string, string)) returns (r: string)
    ensures r == lines + TermLine(t.0, t.1)
  {
    r := lines + TermLine(t.0, t.1);
  }

  // ---------------------------------------------------------------- cleaning the reply

  /** The labels a reply may open with, each followed by a colon. */
  const AnswerLabels: seq<string> := ["translation", "перевод", "translated text", "переведенный текст"]

  predicate ColonFree(s: string) {
    forall j :: 0 <= j < |s| ==> s[j] != ':'
  }

  lemma AnswerLabelsColonFree(k: nat)
    requires k < |AnswerLabels|
    ensures ColonFree(AnswerLabels[k])
  {
    assert ColonFree("translation");
    assert ColonFree("перевод");
    assert ColonFree("translated text");
    assert ColonFree("переведенный текст");
  }

  /** The reply opens, ignoring case, with one of the answer labels and a colon. */
  predicate Labelled(t: string) {
    exists k | 0 <= k < |AnswerLabels| :: StartsWith(Lower(t), AnswerLabels[k] + ":")
  }

  /** Lower-casing leaves a colon a colon and makes nothing else one. */
  lemma LowerCharColon(c: char)
    ensures LowerChar(c) == ':' <==> c == ':'
  {
  }

  /** In a reply whose lower-cased form opens with `label:`, the first colon is the label's. */
  lemma {:induction false} ColonAfterLabel(t: string, tag: string)
    requires ColonFree(tag) && StartsWith(Lower(t), tag + ":")
    ensures Find(t, ":", 0) == |tag|
  {
    var n := |tag|;
    assert Lower(t)[..n + 1] == tag + ":";
    assert Lower(t)[n] == ':';
    LowerCharColon(t[n]);
    assert t[n..n + 1] == ":";
    assert OccursAt(t, ":", n);
    forall j | 0 <= j < n
      ensures !OccursAt(t, ":", j)
    {
      assert Lower(t)[j] == tag[j];
      LowerCharColon(t[j]);
      assert t[j..j + 1] == [t[j]];
    }
  }

  /** For a labelled reply, what follows its first colon, stripped; any other reply as it is. */
  function CutLabel(t: string): string {
    if Labelled(t) then
      var k :| 0 <= k < |AnswerLabels| && StartsWith(Lower(t), AnswerLabels[k] + ":");
      AnswerLabelsColonFree(k);
      ColonAfterLabel(t, AnswerLabels[k]);
      Strip(t[Find(t, ":", 0) + 1..])
    else t
  }

  /** Removes an opening fence line: three backticks at the very start, through the first newline. */
  function DropOpeningFence(t: string): (r: string)
    ensures |r| <= |t| && r == t[|t| - |r|..]
  {
    if StartsWith(t, "```") && Find(t, "\n", 3) != -1 then t[Find(t, "\n", 3) + 1..] else t
  }

  /** Removes a closing fence: a newline and three backticks at the very end, or just before a
      final newline (which stays). */
  function DropClosingFence(t: string): (r: string)
    ensures |r| <= |t|
  {
    if EndsWith(t, "\n```") then t[..|t| - 4]
    else if EndsWith(t, "\n```\n") then t[..|t| - 5] + "\n"
    else t
  }

  function Clean(t: string): string {
    DropClosingFence(DropOpeningFence(CutLabel(t)))
  }

  /** A labelled reply loses its label, the colon and the whitespace around the rest. */
  lemma CutLabelAt(t: string, k: nat)
    requires k < |AnswerLabels| && StartsWith(Lower(t), AnswerLabels[k] + ":")
    ensures CutLabel(t) == Strip(t[|AnswerLabels[k]| + 1..])
  {
    AnswerLabelsColonFree(k);
    ColonAfterLabel(t, AnswerLabels[k]);
  }

  /** A reply wrapped in a fenced block, opening line `lang`, comes back unwrapped. */
  lemma FencedReplyUnwrapped(info: string, body: string)
    requires !Contains(info, "\n")
    ensures Clean("```" + info + "\n" + body + "\n```") == body
  {
    var t := "```" + info + "\n" + body + "\n```";
    assert !Labelled(t) by {
      forall k | 0 <= k < |AnswerLabels|
        ensures !StartsWith(Lower(t), AnswerLabels[k] + ":")
      {
        assert Lower(t)[0] == LowerChar('`') == '`';
        assert AnswerLabels[k][0] != '`';
      }
    }
    OpeningFenceLine(info, body + "\n```");
    AppendAssociative("```" + info + "\n", body, "\n```");
    assert DropOpeningFence(t) == body + "\n```";
    assert (body + "\n```")[..|body|] == body;
  }

  lemma OpeningFenceLine(info: string, rest: string)
    requires !Contains(info, "\n")
    ensures DropOpeningFence("```" + info + "\n" + rest) == rest
  {
    var t := "```" + info + "\n" + rest;
    var n := 3 + |info|;
    assert t[..3] == "```";
    assert t[n..n + 1] == "\n";
    assert OccursAt(t, "\n", n);
    forall j | 3 <= j < n
      ensures !OccursAt(t, "\n", j)
    {
      assert !OccursAt(info, "\n", j - 3);
      assert info[j - 3..j - 2] == t[j..j + 1];
    }
    assert Find(t, "\n", 3) == n;
    assert t[n + 1..] == rest;
  }

  /** A reply with neither label nor fences is returned as it is. */
  lemma PlainReplyKept(t: string)
    requires !Labelled(t) && !StartsWith(t, "```") && !EndsWith(t, "\n```") && !EndsWith(t, "\n```\n")
    ensures Clean(t) == t
  {
  }

  /** Removing the closing fence takes off exactly the fence and nothing before it. */
  lemma ClosingFenceRemoved(t: string)
    ensures EndsWith(t, "\n```") ==> DropClosingFence(t) + "\n```" == t
    ensures EndsWith(t, "\n```\n") ==> DropClosingFence(t) + "```\n" == t
  {
    if EndsWith(t, "\n```") {
      assert t == t[..|t| - 4] + t[|t| - 4..];
    } else if EndsWith(t, "\n```\n") {
      assert t == t[..|t| - 5] + t[|t| - 5..];
      AppendAssociative(t[..|t| - 5], "\n", "```\n");
    }
  }

  // ---------------------------------------------------------------- remembering terms

  /** One turn of `_update_translated_terms`. */
  function AddTerm(terms: Terms, e: TermEntry, text: string, lang: string): Terms {
    if Contains(text, e.term) && !Known(terms, e.term) && HasTranslation(e, lang)
    then terms + [(e.term, TranslationOf(e, lang))]
    else terms
  }

  /** `_update_translated_terms` over the first `n` glossary entries. */
  function AddTerms(g: Glossary, text: string, lang: string, terms: Terms, n: nat): Terms
    requires n <= |g|
  {
    if n == 0 then terms else AddTerm(AddTerms(g, text, lang, terms, n - 1), g[n - 1], text, lang)
  }

  /** Terms already known keep their place and their translation. */
  lemma {:induction false} AddTermsExtends(g: Glossary, text: string, lang: string, terms: Terms, n: nat)
    requires n <= |g|
    ensures |terms| <= |AddTerms(g, text, lang, terms, n)|
    ensures AddTerms(g, text, lang, terms, n)[..|terms|] == terms
  {
    if n > 0 {
      AddTermsExtends(g, text, lang, terms, n - 1);
      var before := AddTerms(g, text, lang, terms, n - 1);
      if AddTerms(g, text, lang, terms, n) != before {
        assert (before + [(g[n - 1].term, TranslationOf(g[n - 1], lang))])[..|terms|] == before[..|terms|];
      }
    }
  }

  /** No term is remembered twice. */
  lemma {:induction false} AddTermsDistinct(g: Glossary, text: string, lang: string, terms: Terms, n: nat)
    requires n <= |g| && DistinctKeys(terms)
    ensures DistinctKeys(AddTerms(g, text, lang, terms, n))
  {
    if n > 0 {
      AddTermsDistinct(g, text, lang, terms, n - 1);
      AddTermDistinct(AddTerms(g, text, lang, terms, n - 1), g[n - 1], text, lang);
    }
  }

  lemma AddTermDistinct(terms: Terms, e: TermEntry, text: string, lang: string)
    requires DistinctKeys(terms)
    ensures DistinctKeys(AddTerm(terms, e, text, lang))
  {
    var r := AddTerm(terms, e, text, lang);
    if r != terms {
      forall i, j | 0 <= i < j < |r|
        ensures r[i].0 != r[j].0
      {
        if j == |terms| {
          assert r[i] == terms[i];
        } else {
          assert r[i] == terms[i] && r[j] == terms[j];
        }
      }
    }
  }

  /** The glossary entry that justifies remembering `pair`. */
  predicate FromGlossary(g: Glossary, n: nat, text: string, lang: string, pair: (string, string))
    requires n <= |g|
  {
    exists k | 0 <= k < n ::
      g[k].term == pair.0 && HasTranslation(g[k], lang) && TranslationOf(g[k], lang) == pair.1
      && Contains(text, pair.0)
  }

  /** Every newly remembered term occurs in the text and carries its glossary translation. */
  lemma {:induction false} AddTermsSound(g: Glossary, text: string, lang: string, terms: Terms, n: nat, i: nat)
    requires n <= |g| && |terms| <= i < |AddTerms(g, text, lang, terms, n)|
    ensures FromGlossary(g, n, text, lang, AddTerms(g, text, lang, terms, n)[i])
  {
    var r := AddTerms(g, text, lang, terms, n);
    assert n > 0;
    var before := AddTerms(g, text, lang, terms, n - 1);
    AddTermsExtends(g, text, lang, terms, n - 1);
    if i < |before| {
      AddTermsSound(g, text, lang, terms, n - 1, i);
      assert r[i] == before[i];
      FromGlossaryWider(g, n - 1, text, lang, r[i]);
    } else {
      assert r[i] == (g[n - 1].term, TranslationOf(g[n - 1], lang));
      assert FromGlossary(g, n, text, lang, r[i]) by {
        var k := n - 1;
        assert g[k].term == r[i].0 && HasTranslation(g[k], lang);
      }
    }
  }

  lemma FromGlossaryWider(g: Glossary, n: nat, text: string, lang: string, pair: (string, string))
    requires n < |g| && FromGlossary(g, n, text, lang, pair)
    ensures FromGlossary(g, n + 1, text, lang, pair)
  {
    var k :| 0 <= k < n && g[k].term == pair.0 && HasTranslation(g[k], lang)
             && TranslationOf(g[k], lang) == pair.1 && Contains(text, pair.0);
    assert 0 <= k < n + 1;
  }

  /** Every glossary term that occurs in the text and has a translation ends up remembered. */
  lemma {:induction false} AddTermsComplete(g: Glossary, text: string, lang: string, terms: Terms, n: nat, k: nat)
    requires k < n <= |g| && Contains(text, g[k].term) && HasTranslation(g[k], lang)
    ensures Known(AddTerms(g, text, lang, terms, n), g[k].term)
  {
    var before := AddTerms(g, text, lang, terms, n - 1);
    if k < n - 1 {
      AddTermsComplete(g, text, lang, terms, n - 1, k);
      AddTermKeeps(before, g[n - 1], text, lang, g[k].term);
    } else if !Known(before, g[k].term) {
      var r := AddTerms(g, text, lang, terms, n);
      assert r[|before|].0 == g[k].term;
    }
  }

  lemma AddTermKeeps(terms: Terms, e: TermEntry, text: string, lang: string, term: string)
    requires Known(terms, term)
    ensures Known(AddTerm(terms, e, text, lang), term)
  {
    var i :| 0 <= i < |terms| && terms[i].0 == term;
    assert AddTerm(terms, e, text, lang)[i] == terms[i];
  }

  // ---------------------------------------------------------------- one translation call

  /** The state of a context: its remembered terms, part number and token total. */
  datatype Snapshot = Snapshot(terms: Terms, part: int, tokens: int)

  const FreshSnapshot := Snapshot([], 1, 0)

  /** What the rest of `translate_text` makes of the service's `reply` in state `s`: the
      outcome, the new context state and the tokens counted. */
  function Respond(reply: Reply, g: Glossary, text: string, lang: string, s: Snapshot): (Outcome, Snapshot, nat)
  {
    match reply
    case ServiceError => (Returned(text), s, 0)
    case Answer(content, p, c) =>
      if content.None? then (Returned(text), s.(tokens := s.tokens + p + c), p + c)
      else (Returned(Clean(content.value)),
            Snapshot(AddTerms(g, text, lang, s.terms, |g|), s.part + 1, s.tokens + p + c),
            p + c)
  }

  /** What one call of `translate_text` produces from the context state `s`, given the
      hint text in effect. */
  function TranslateSpec(client: Request -> Reply, model: string, g: Glossary, text: string,
                         lang: string, system: string, hints: string, s: Snapshot): (Outcome, Snapshot, nat)
  {
    if !Loadable(g) then (Raised, s, 0)
    else Respond(client(Request(model, EnhancedPrompt(system, g, lang, s.terms, hints), text)), g, text, lang, s)
  }

  /** A call that does not get a content back returns (or raises on) the text untouched and
      leaves the remembered terms and the part number as they were. */
  lemma FailedCallKeepsText(client: Request -> Reply, model: string, g: Glossary, text: string,
                            lang: string, system: string, hints: string, s: Snapshot)
    requires var r := client(Request(model, EnhancedPrompt(system, g, lang, s.terms, hints), text));
             !(r.Answer? && r.content.Some?)
    ensures var (o, s', _) := TranslateSpec(client, model, g, text, lang, system, hints, s);
            (o == Raised || o == Returned(text)) && s'.terms == s.terms && s'.part == s.part
  {
  }

  /** A successful call moves to the next part, keeps every remembered term and counts the
      usage of the reply on the context as on the translator. */
  lemma SuccessfulCallAdvances(client: Request -> Reply, model: string, g: Glossary, text: string,
                               lang: string, system: string, hints: string, s: Snapshot)
    requires Loadable(g)
    requires var r := client(Request(model, EnhancedPrompt(system, g, lang, s.terms, hints), text));
             r.Answer? && r.content.Some?
    ensures var (o, s', used) := TranslateSpec(client, model, g, text, lang, system, hints, s);
            o.Returned? && s'.part == s.part + 1 && s'.tokens == s.tokens + used
            && |s.terms| <= |s'.terms| && s'.terms[..|s.terms|] == s.terms
  {
    AddTermsExtends(g, text, lang, s.terms, |g|);
  }

  /** `translate_text` raises exactly when the glossary has a null value, whatever the reply. */
  lemma RaisesIffNullTerm(client: Request -> Reply, model: string, g: Glossary, text: string,
                          lang: string, system: string, hints: string, s: Snapshot)
    ensures TranslateSpec(client, model, g, text, lang, system, hints, s).0 == Raised <==> !Loadable(g)
  {
  }

  // ---------------------------------------------------------------- the classes

  /** The per-document context threaded through the calls for the parts of a document. */
  class Context {
    var translatedTerms: Terms
    var partNumber: int
    var totalTokens: int

    /** The context `translate_text` creates when none is passed. */
    constructor ()
      ensures translatedTerms == [] && partNumber == 1 && totalTokens == 0
    {
      translatedTerms := [];
      partNumber := 1;
      totalTokens := 0;
    }

    function State(): Snapshot
      reads this
    {
      Snapshot(translatedTerms, partNumber, totalTokens)
    }
  }

  /** The state a call starts from: the context's, or a fresh one's. */
  function StateOf(c: Context?): Snapshot
    reads c
  {
    if c == null then FreshSnapshot else c.State()
  }

  class Translator {
    const client: Request -> Reply
    const modelName: string
    const glossary: Glossary
    var totalTokensProcessed: nat

    constructor (client: Request -> Reply, modelName: string, glossary: Glossary)
      ensures this.client == client && this.modelName == modelName && this.glossary == glossary
      ensures totalTokensProcessed == 0
    {
      this.client := client;
      this.modelName := modelName;
      this.glossary := glossary;
      totalTokensProcessed := 0;
    }

    /** `translate_text(text, target_language, system_prompt, context)`, reading the
        improvement hints of `lang` from `store`. The context passed in is updated in place
        and returned; without one a fresh context is created. */
    method TranslateText(text: string, lang: string, systemPrompt: string, context: Context?, store: HintStore)
      returns (outcome: Outcome, ctx: Context)
      modifies this, context
      ensures context != null ==> ctx == context
      ensures context == null ==> fresh(ctx)
      ensures var r := TranslateSpec(client, modelName, glossary, text, lang, systemPrompt,
                                     HintText(store.File(lang)), old(StateOf(context)));
              outcome == r.0 && ctx.State() == r.1 && totalTokensProcessed == old(totalTokensProcessed) + r.2
    {
      ghost var s := StateOf(context);
      ghost var hints := HintText(store.File(lang));
      if context == null {
        ctx := new Context();
      } else {
        ctx := context;
      }
      assert ctx.State() == s;
      var used, answered;
      outcome, used, answered := Exchange(client, modelName, glossary, text, lang, systemPrompt, ctx.State(), store);
      ghost var next := Advanced(glossary, text, lang, s, used, answered);
      totalTokensProcessed := totalTokensProcessed + used;
      ctx.totalTokens := ctx.totalTokens + used;
      if answered {
        ctx.partNumber := ctx.partNumber + 1;
        UpdateTranslatedTerms(text, lang, ctx);
      }
      assert ctx.State() == next;
      assert HintText(store.File(lang)) == hints;
    }

    /** `_update_translated_terms`: remember, in glossary order, each term of the text not
        yet remembered that has a translation into `lang`. */
    method UpdateTranslatedTerms(text: string, lang: string, context: Context)
      requires Loadable(glossary)
      modifies context
      ensures context.translatedTerms == AddTerms(glossary, text, lang, old(context.translatedTerms), |glossary|)
      ensures context.partNumber == old(context.partNumber) && context.totalTokens == old(context.totalTokens)
    {
      context.translatedTerms := RememberTerms(glossary, text, lang, context.translatedTerms);
    }

    /** `get_total_tokens`. */
    method GetTotalTokens() returns (n: nat)
      ensures n == totalTokensProcessed
    {
      return totalTokensProcessed;
    }
  }

  /** The heap-free part of `translate_text`: build the prompt from the state `s` and the hints
      of `store`, ask the service, and report the outcome, the tokens to count and whether a
      content came back (the case in which the part number moves on and terms are remembered). */
  method Exchange(client: Request -> Reply, model: string, g: Glossary, text: string, lang: string,
                  system: string, s: Snapshot, store: HintStore)
    returns (outcome: Outcome, used: nat, answered: bool)
    ensures var r := TranslateSpec(client, model, g, text, lang, system, HintText(store.File(lang)), s);
            outcome == r.0 && used == r.2 && r.1 == Advanced(g, text, lang, s, used, answered)
    ensures answered ==> Loadable(g)
  {
    var block := BuildGlossaryBlock(g, lang, s.terms);
    if block.None? {
      return Raised, 0, false;
    }
    var improvements := store.Load(lang);
    var prompt := system + block.value + improvements;
    assert prompt == EnhancedPrompt(system, g, lang, s.terms, HintText(store.File(lang)));
    var reply := client(Request(model, prompt, text));
    outcome, used, answered := Digest(reply, g, text, lang, s);
  }

  /** The context state after a call that counted `used` tokens and, when `answered`,
      moved to the next part and remembered the terms of `text`. */
  function Advanced(g: Glossary, text: string, lang: string, s: Snapshot, used: nat, answered: bool): Snapshot {
    if answered then Snapshot(AddTerms(g, text, lang, s.terms, |g|), s.part + 1, s.tokens + used)
    else s.(tokens := s.tokens + used)
  }

  /** The handling of the service's reply inside the `try` of `translate_text`. */
  method Digest(reply: Reply, g: Glossary, text: string, lang: string, s: Snapshot)
    returns (outcome: Outcome, used: nat, answered: bool)
    ensures var r := Respond(reply, g, text, lang, s);
            outcome == r.0 && used == r.2 && r.1 == Advanced(g, text, lang, s, used, answered)
  {
    match reply {
      case ServiceError =>
        return Returned(text), 0, false;
      case Answer(content, promptTokens, completionTokens) =>
        used := promptTokens + completionTokens;
        if content.None? {
          return Returned(text), used, false;
        }
        return Returned(Clean(content.value)), used, true;
    }
  }

  /** The loop of `_update_translated_terms`. */
  method RememberTerms(g: Glossary, text: string, lang: string, terms: Terms) returns (r: Terms)
    requires Loadable(g)
    ensures r == AddTerms(g, text, lang, terms, |g|)
  {
    r := terms;
    var i := 0;
    while i < |g|
      invariant 0 <= i <= |g|
      invariant r == AddTerms(g, text, lang, terms, i)
    {
      r := RememberTerm(r, g[i], text, lang);
      i := i + 1;
    }
  }

  /** One turn of that loop. */
  method RememberTerm(terms: Terms, e: TermEntry, text: string, lang: string) returns (r: Terms)
    requires e.translations.Mapping?
    ensures r == AddTerm(terms, e, text, lang)
  {
    r := terms;
    if Contains(text, e.term) && !Known(terms, e.term) && lang in e.translations.byLanguage {
      r := terms + [(e.term, e.translations.byLanguage[lang])];
    }
  }
}
