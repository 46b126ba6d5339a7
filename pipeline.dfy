// The steps both translation scripts apply to one document: removing the local-text
// regions, translating the parts in order with one context, and putting the document back
// together.

module Pipeline {
  import opened Wrappers
  import opened Strings
  import opened Config
  import opened FileUtils
  import opened Translator
  import opened PromptHints
  import opened FrontmatterTranslation

  // ---------------------------------------------------------------- paths

  /** Path joining: an absolute `b` replaces `a`; otherwise a `/` is put between
      them unless `a` is empty or already ends with one. */
  function JoinPath(a: string, b: string): (r: string)
    ensures StartsWith(b, "/") ==> r == b
    ensures !StartsWith(b, "/") ==> EndsWith(r, b)
  {
    if StartsWith(b, "/") then b
    else if a == "" || EndsWith(a, "/") then a + b
    else a + "/" + b
  }

  // ---------------------------------------------------------------- local text

  const LocalStart := "{/* LOCAL TEXT START */}"
  const LocalEnd := "{/* LOCAL TEXT END */}"

  /** The substitution that removes every region from an `open` marker to the nearest
      `close` marker after it, markers included, scanning from the left. */
  function DropRegions(s: string, open: string, close: string): (r: string)
    requires open != []
    ensures |r| <= |s|
    ensures Find(s, open, 0) == -1 ==> r == s
    decreases |s|
  {
    var i := Find(s, open, 0);
    if i == -1 then s
    else
      var j := Find(s, close, i + |open|);
      if j == -1 then s
      else s[..i] + DropRegions(s[j + |close|..], open, close)
  }

  /** The document with every local-text region, markers included, removed. */
  function DropLocalText(s: string): (r: string)
    ensures |r| <= |s|
    ensures Find(s, LocalStart, 0) == -1 ==> r == s
  {
    DropRegions(s, LocalStart, LocalEnd)
  }

  predicate NoBrace(s: string) {
    forall k :: 0 <= k < |s| ==> s[k] != '{'
  }

  /** A pattern that opens with `{` occurs in `s` only where `s` has a `{`. */
  lemma BraceFirst(s: string, p: string, k: int)
    requires p != [] && p[0] == '{' && OccursAt(s, p, k)
    ensures s[k] == '{'
  {
    assert s[k..k + |p|][0] == s[k];
  }

  lemma NoBraceNotFound(s: string, p: string)
    requires p != [] && p[0] == '{' && NoBrace(s)
    ensures Find(s, p, 0) == -1
  {
    var r := Find(s, p, 0);
    if r != -1 {
      BraceFirst(s, p, r);
    }
  }

  /** The first occurrence of `p` in `a + p + b`, for an `a` without braces, is right after `a`. */
  lemma FoundAfter(a: string, p: string, b: string, start: nat)
    requires p != [] && p[0] == '{' && start <= |a| && NoBrace(a[start..])
    ensures Find(a + p + b, p, start) == |a|
  {
    var s := a + p + b;
    assert s[|a|..|a| + |p|] == p;
    assert OccursAt(s, p, |a|);
    var r := Find(s, p, start);
    if r < |a| {
      assert a[start..][r - start] == s[r];
      BraceFirst(s, p, r);
      assert false;
    }
  }

  /** A single marked region, in a text without other braces, is cut out with its markers. */
  lemma RegionRemoved(a: string, m: string, b: string, open: string, close: string)
    requires open != [] && open[0] == '{' && close != [] && close[0] == '{'
    requires NoBrace(a) && NoBrace(m) && NoBrace(b)
    ensures DropRegions(a + open + m + close + b, open, close) == a + b
  {
    NoBraceFirstAtEnd(a, open);
    NoBraceFirstAtEnd(m, close);
    NoBraceNotFound(b, open);
    RegionStep(a, m, b, open, close);
  }

  /** A local-text region, in a text without other braces, is removed with its markers. */
  lemma LocalRegionRemoved(a: string, m: string, b: string)
    requires NoBrace(a) && NoBrace(m) && NoBrace(b)
    ensures DropLocalText(a + LocalStart + m + LocalEnd + b) == a + b
  {
    RegionRemoved(a, m, b, LocalStart, LocalEnd);
  }

  /** `p` occurs in `x + p` first at the end: the search for `p` from the start of `x` finds
      the `p` that follows it, however `x` ends. */
  predicate FirstAtEnd(x: string, p: string) {
    forall j :: 0 <= j < |x| ==> !OccursAt(x + p, p, j)
  }

  /** A text without braces meets a marker that opens with `{` only at its end. */
  lemma NoBraceFirstAtEnd(x: string, p: string)
    requires p != [] && p[0] == '{' && NoBrace(x)
    ensures FirstAtEnd(x, p)
  {
    forall j | 0 <= j < |x| && OccursAt(x + p, p, j)
      ensures false
    {
      assert (x + p)[j] == x[j];
      BraceFirst(x + p, p, j);
    }
  }

  /** An occurrence that ends inside a prefix is an occurrence in the prefix. */
  lemma OccursInPrefix(u: string, v: string, p: string, j: int)
    requires 0 <= j && j + |p| <= |u|
    ensures OccursAt(u + v, p, j) <==> OccursAt(u, p, j)
  {
    assert (u + v)[j..j + |p|] == u[j..j + |p|];
  }

  /** An occurrence past a prefix is an occurrence in the rest, shifted. */
  lemma OccursAfterPrefix(pre: string, u: string, p: string, j: int)
    requires 0 <= j
    ensures OccursAt(pre + u, p, |pre| + j) <==> OccursAt(u, p, j)
  {
    if j + |p| <= |u| {
      assert (pre + u)[|pre| + j..|pre| + j + |p|] == u[j..j + |p|];
    }
  }

  /** The search from `start` finds `p` at the first index from `start` where it occurs. */
  lemma FindFirst(s: string, p: string, start: nat, k: nat)
    requires start <= k && OccursAt(s, p, k)
    requires forall j :: start <= j < k ==> !OccursAt(s, p, j)
    ensures Find(s, p, start) == k
  {
  }

  /** The first `open` in `a + open + t` is the one after `a`. */
  lemma OpenFound(a: string, open: string, t: string)
    requires open != [] && FirstAtEnd(a, open)
    ensures Find(a + open + t, open, 0) == |a|
  {
    var u := a + open;
    var s := u + t;
    forall j | 0 <= j < |a|
      ensures !OccursAt(s, open, j)
    {
      OccursInPrefix(u, t, open, j);
    }
    assert OccursAt(s, open, |a|) by {
      OccursInPrefix(u, t, open, |a|);
      assert u[|a|..|a| + |open|] == open;
    }
    FindFirst(s, open, 0, |a|);
  }

  /** Searching from the end of `u`, the first `close` in `u + (m + close + t)` is the one
      after `m`. */
  lemma CloseFound(u: string, m: string, close: string, t: string)
    requires close != [] && FirstAtEnd(m, close)
    ensures Find(u + (m + close + t), close, |u|) == |u| + |m|
  {
    hide *;
    var w := m + close;
    var s := u + (w + t);
    assert m + close + t == w + t;
    OccursAtEnd(m, close);
    forall j | |u| <= j < |u| + |m|
      ensures !OccursAt(s, close, j)
    {
      CloseNotEarly(u, m, close, t, j - |u|);
    }
    OccursAfterPrefix(u, w + t, close, |m|);
    OccursInPrefix(w, t, close, |m|);
    FindFirst(s, close, |u|, |u| + |m|);
  }

  lemma CloseNotEarly(u: string, m: string, close: string, t: string, j: int)
    requires FirstAtEnd(m, close) && 0 <= j < |m|
    ensures !OccursAt(u + (m + close + t), close, |u| + j)
  {
    var w := m + close;
    assert m + close + t == w + t;
    OccursAfterPrefix(u, w + t, close, j);
    OccursInPrefix(w, t, close, j);
  }

  lemma OccursAtEnd(x: string, p: string)
    ensures OccursAt(x + p, p, |x|)
  {
    assert (x + p)[|x|..|x| + |p|] == p;
  }

  lemma NotBeforeEnd(x: string, p: string, j: int)
    requires FirstAtEnd(x, p) && 0 <= j < |x|
    ensures !OccursAt(x + p, p, j)
  {
  }

  /** In `a + open + m + close + rest`, the first `open` follows `a` and the first `close`
      after it follows `m`, so one step of the substitution cuts out `open + m + close`. */
  lemma RegionStep(a: string, m: string, rest: string, open: string, close: string)
    requires open != [] && close != []
    requires FirstAtEnd(a, open) && FirstAtEnd(m, close)
    ensures DropRegions(a + open + m + close + rest, open, close) == a + DropRegions(rest, open, close)
  {
    var s := a + open + m + close + rest;
    var u := a + open;
    assert s == a + open + (m + close + rest);
    OpenFound(a, open, m + close + rest);
    assert s == u + (m + close + rest);
    CloseFound(u, m, close, rest);
    hide Find;
    assert s[..|a|] == a;
    assert s[|u| + |m| + |close|..] == rest;
  }

  /** Text pieces, each followed by one marked region. */
  function Marked(ps: seq<(string, string)>, open: string, close: string): string {
    if ps == [] then "" else ps[0].0 + open + ps[0].1 + close + Marked(ps[1..], open, close)
  }

  /** The text pieces alone. */
  function Unmarked(ps: seq<(string, string)>): string {
    if ps == [] then "" else ps[0].0 + Unmarked(ps[1..])
  }

  lemma MarkedCons(ps: seq<(string, string)>, open: string, close: string)
    requires ps != []
    ensures Marked(ps, open, close) == ps[0].0 + open + ps[0].1 + close + Marked(ps[1..], open, close)
    ensures Unmarked(ps) == ps[0].0 + Unmarked(ps[1..])
  {
  }

  /** Every marked region is cut out with its markers and the text around them is kept in
      order, provided no piece of text runs into an opening marker and no region into a
      closing one early, and the tail holds no opening marker. */
  lemma {:induction false} RegionsRemoved(ps: seq<(string, string)>, tail: string, open: string, close: string)
    requires open != [] && close != []
    requires forall k :: 0 <= k < |ps| ==> FirstAtEnd(ps[k].0, open) && FirstAtEnd(ps[k].1, close)
    requires Find(tail, open, 0) == -1
    ensures DropRegions(Marked(ps, open, close) + tail, open, close) == Unmarked(ps) + tail
    decreases |ps|
  {
    hide *;
    if ps == [] {
      MarkedNil(open, close);
      assert Marked(ps, open, close) + tail == tail;
      assert Unmarked(ps) + tail == tail;
    } else {
      var x := ps[0].0;
      var m := ps[0].1;
      var more := ps[1..];
      var rest := Marked(more, open, close) + tail;
      MarkedCons(ps, open, close);
      assert FirstAtEnd(x, open) && FirstAtEnd(m, close);
      RegionStep(x, m, rest, open, close);
      assert forall k :: 0 <= k < |more| ==> more[k] == ps[k + 1];
      RegionsRemoved(more, tail, open, close);
      assert Marked(ps, open, close) + tail == x + open + m + close + rest;
      assert Unmarked(ps) + tail == x + (Unmarked(more) + tail);
    }
  }

  lemma MarkedNil(open: string, close: string)
    ensures Marked([], open, close) == "" && Unmarked([]) == ""
  {
  }

  lemma TwoMarked(a: string, m1: string, b: string, m2: string, open: string, close: string)
    ensures Marked([(a, m1), (b, m2)], open, close) == a + open + m1 + close + (b + open + m2 + close)
    ensures Unmarked([(a, m1), (b, m2)]) == a + b
  {
    var ps := [(a, m1), (b, m2)];
    assert ps[1..] == [(b, m2)] && ps[1..][1..] == [];
    assert Marked(ps[1..][1..], open, close) == "";
    assert Unmarked(ps[1..][1..]) == "";
  }

  /** Two marked regions are removed with their markers. */
  lemma TwoRegionsRemoved(a: string, m1: string, b: string, m2: string, c: string, open: string, close: string)
    requires open != [] && close != []
    requires FirstAtEnd(a, open) && FirstAtEnd(m1, close)
    requires FirstAtEnd(b, open) && FirstAtEnd(m2, close)
    requires Find(c, open, 0) == -1
    ensures DropRegions(a + open + m1 + close + b + open + m2 + close + c, open, close) == a + b + c
  {
    var ps := [(a, m1), (b, m2)];
    TwoMarked(a, m1, b, m2, open, close);
    hide *;
    assert ps[0] == (a, m1) && ps[1] == (b, m2) && |ps| == 2;
    assert forall k :: 0 <= k < |ps| ==> FirstAtEnd(ps[k].0, open) && FirstAtEnd(ps[k].1, close);
    RegionsRemoved(ps, c, open, close);
    assert Marked(ps, open, close) + c == a + open + m1 + close + b + open + m2 + close + c;
    assert Unmarked(ps) + c == a + b + c;
  }

  /** Two local-text regions are removed with their markers, whatever braces the text holds
      elsewhere. */
  lemma TwoLocalRegionsRemoved(a: string, m1: string, b: string, m2: string, c: string)
    requires FirstAtEnd(a, LocalStart) && FirstAtEnd(m1, LocalEnd)
    requires FirstAtEnd(b, LocalStart) && FirstAtEnd(m2, LocalEnd)
    requires Find(c, LocalStart, 0) == -1
    ensures DropLocalText(a + LocalStart + m1 + LocalEnd + b + LocalStart + m2 + LocalEnd + c) == a + b + c
  {
    TwoRegionsRemoved(a, m1, b, m2, c, LocalStart, LocalEnd);
  }

  // ---------------------------------------------------------------- the parts

  /** One call of `translate_text` on a part, from a context state. */
  type PartTranslator = (string, Snapshot) -> (Outcome, Snapshot, nat)

  /** `translator.translate_text(part, lang, system_prompt, context)`. */
  function Part(client: Request -> Reply, model: string, g: Glossary, lang: string,
                system: string, hints: string): PartTranslator {
    (part, s) => TranslateSpec(client, model, g, part, lang, system, hints, s)
  }

  /** The first `n` parts translated in order, each from the context the previous one left:
      their outcomes, the final context state and the tokens counted. */
  function PartsFold(tr: PartTranslator, parts: seq<string>, s: Snapshot, n: nat): (r: (seq<Outcome>, Snapshot, nat))
    requires n <= |parts|
    ensures |r.0| == n
  {
    if n == 0 then ([], s, 0)
    else
      var prev := PartsFold(tr, parts, s, n - 1);
      var step := tr(parts[n - 1], prev.1);
      (prev.0 + [step.0], step.1, prev.2 + step.2)
  }

  /** No part translated: no outcome, the starting context, no tokens. */
  lemma PartsFoldNone(tr: PartTranslator, parts: seq<string>, s: Snapshot)
    ensures PartsFold(tr, parts, s, 0) == ([], s, 0)
  {
  }

  /** One more part translated from the context the earlier ones left. */
  lemma PartsFoldNext(tr: PartTranslator, parts: seq<string>, s: Snapshot, n: nat)
    requires n < |parts|
    ensures var prev := PartsFold(tr, parts, s, n);
            var step := tr(parts[n], prev.1);
            var next := PartsFold(tr, parts, s, n + 1);
            next.0 == prev.0 + [step.0] && next.1 == step.1 && next.2 == prev.2 + step.2
  {
  }

  /** Applying `Part` is `translate_text`. */
  lemma PartApplied(client: Request -> Reply, model: string, g: Glossary, lang: string, system: string,
                    hints: string, part: string, s: Snapshot)
    ensures Part(client, model, g, lang, system, hints)(part, s) == TranslateSpec(client, model, g, part, lang, system, hints, s)
  {
  }

  /** Translating more parts only extends the outcomes of the earlier ones. */
  lemma {:induction false} PartsFoldPrefix(tr: PartTranslator, parts: seq<string>, s: Snapshot, n: nat, m: nat)
    requires n <= m <= |parts|
    ensures PartsFold(tr, parts, s, m).0[..n] == PartsFold(tr, parts, s, n).0
    decreases m - n
  {
    if n < m {
      PartsFoldPrefix(tr, parts, s, n, m - 1);
      assert PartsFold(tr, parts, s, m).0[..m - 1] == PartsFold(tr, parts, s, m - 1).0;
    } else {
      assert PartsFold(tr, parts, s, m).0[..m] == PartsFold(tr, parts, s, m).0;
    }
  }

  /** With a glossary whose every term has a mapping no part raises; otherwise every part
      raises and nothing is counted or remembered. */
  lemma {:induction false} PartsRaiseIffNullTerm(client: Request -> Reply, model: string, g: Glossary, lang: string,
                                                 system: string, hints: string, parts: seq<string>, s: Snapshot, n: nat)
    requires n <= |parts|
    ensures var r := PartsFold(Part(client, model, g, lang, system, hints), parts, s, n);
      (Loadable(g) ==> forall k :: 0 <= k < n ==> r.0[k].Returned?)
      && (!Loadable(g) ==> (forall k :: 0 <= k < n ==> r.0[k].Raised?) && r.1 == s && r.2 == 0)
  {
    hide Respond;
    hide EnhancedPrompt;
    if n > 0 {
      var tr := Part(client, model, g, lang, system, hints);
      PartsRaiseIffNullTerm(client, model, g, lang, system, hints, parts, s, n - 1);
      var prev := PartsFold(tr, parts, s, n - 1);
      var step := tr(parts[n - 1], prev.1);
      assert step == TranslateSpec(client, model, g, parts[n - 1], lang, system, hints, prev.1);
      RaisesIffNullTerm(client, model, g, parts[n - 1], lang, system, hints, prev.1);
      var r := PartsFold(tr, parts, s, n);
      assert r.0 == prev.0 + [step.0] && r.1 == step.1 && r.2 == prev.2 + step.2;
      if Loadable(g) {
        assert step.0 != Raised;
        forall k | 0 <= k < n
          ensures r.0[k].Returned?
        {
          if k < n - 1 {
            assert prev.0[k].Returned?;
            assert r.0[k] == prev.0[k];
          } else {
            assert r.0[k] == step.0;
          }
        }
      } else {
        assert step == (Raised, prev.1, 0);
        forall k | 0 <= k < n
          ensures r.0[k].Raised?
        {
          if k < n - 1 {
            assert r.0[k] == prev.0[k];
          } else {
            assert r.0[k] == step.0;
          }
        }
      }
    }
  }

  // ---------------------------------------------------------------- numbers in messages

  function DigitChar(d: nat): (c: char)
    requires d < 10
    ensures '0' <= c <= '9'
  {
    ('0' as int + d) as char
  }

  predicate AllDigits(s: string) {
    forall k :: 0 <= k < |s| ==> '0' <= s[k] <= '9'
  }

  /** `str(n)` for a natural number. */
  function Decimal(n: nat): (r: string)
    ensures |r| >= 1 && AllDigits(r)
    decreases n
  {
    if n < 10 then [DigitChar(n)] else Decimal(n / 10) + [DigitChar(n % 10)]
  }

  /** The number a string of decimal digits denotes. */
  function DigitsValue(s: string): nat
    requires AllDigits(s)
    decreases |s|
  {
    if s == [] then 0 else DigitsValue(s[..|s| - 1]) * 10 + (s[|s| - 1] as int - '0' as int)
  }

  /** Reading back the digits gives the number. */
  lemma {:induction false} DecimalRoundTrip(n: nat)
    ensures DigitsValue(Decimal(n)) == n
    decreases n
  {
    if n >= 10 {
      DecimalRoundTrip(n / 10);
      var d := Decimal(n / 10);
      assert (d + [DigitChar(n % 10)])[..|d|] == d;
    }
  }

  // ---------------------------------------------------------------- assembling the document

  const PartSeparator := "\n\n"

  /** The document written out: the pieces joined by blank lines, after the frontmatter when
      the source had some. */
  function Assemble(hasFrontmatter: bool, frontmatter: string, pieces: seq<string>): string {
    var body := Join(pieces, PartSeparator);
    if hasFrontmatter then RestoreFrontmatter(Some(frontmatter), body) else body
  }

  /** The frontmatter written back and the tokens its translation counted: a non-empty
      frontmatter goes through `translate_frontmatter`, any other is kept. */
  function FrontOf(field: FieldTranslator, parse: string -> Parsed, dump: YamlEntries -> string,
                   ex: Extracted): (string, nat)
  {
    var fm := ex.frontmatter.GetOr("");
    if ex.hasFrontmatter && fm != "" then FrontmatterSpec(field, parse, dump, fm) else (fm, 0)
  }

  /** The frontmatter step of both scripts. */
  method TranslateFront(translator: Translator, ex: Extracted, lang: string, store: HintStore,
                        parse: string -> Parsed, dump: YamlEntries -> string) returns (frontmatter: string)
    modifies translator
    ensures var f := FrontOf(Field(translator.client, translator.modelName, translator.glossary, lang,
                                   FieldPrompt(lang), HintText(store.File(lang))), parse, dump, ex);
            frontmatter == f.0 && translator.totalTokensProcessed == old(translator.totalTokensProcessed) + f.1
  {
    frontmatter := ex.frontmatter.GetOr("");
    if ex.hasFrontmatter && frontmatter != "" {
      frontmatter := TranslateFrontmatter(frontmatter, translator, lang, store, parse, dump);
    }
  }

  // ---------------------------------------------------------------- files and languages

  /** What is known of a source file: whether it looks binary, its text when it can be
      read, and whether the file for the target can be written. */
  datatype SourceFile = SourceFile(binary: bool, content: Option<string>, writable: bool)

  /** What processing a file does to the output: nothing, a copy, or a written translation. */
  datatype Action = Skip | Copy(source: string, target: string) | Write(target: string, content: string)

  /** The values the command line accepts for `--language`. */
  predicate LanguageChoice(arg: string) {
    arg == "en" || arg == "es" || arg == "zh" || arg == "all"
  }

  /** The target languages of a run: all three, or the one asked for. */
  function TargetLanguages(arg: string): (r: seq<string>)
    requires LanguageChoice(arg)
    ensures |r| >= 1
    ensures forall k :: 0 <= k < |r| ==> r[k] == "en" || r[k] == "es" || r[k] == "zh"
    ensures forall j, k :: 0 <= j < k < |r| ==> r[j] != r[k]
    ensures arg != "all" ==> r == [arg]
  {
    if arg == "all" then ["en", "es", "zh"] else [arg]
  }
}
