/** The store of prompt improvements: one JSON list of past translation issues per target
    language, the similarity measure that keeps near-duplicates out of it, and the text
    that the ten most recent issues add to the system prompt. The files themselves are a
    map from language code to what reading the file yields. */
module PromptHints {
  import opened Strings

  /** One stored issue; a field missing from the JSON object reads as `""`. */
  datatype Improvement = Improvement(original: string, translated: string, reason: string)

  /** What reading `prompt_improvements_<lang>.json` yields: no file, a file that is not valid
      JSON, valid JSON that is not a list, or a list of issues. */
  datatype HintFile = Missing | Unreadable | NotAList | Hints(items: seq<Improvement>)

  // ---------------------------------------------------------------- similarity

  /** |a ∩ b| / |a ∪ b|, and 0 for two empty sets. */
  function Jaccard<T>(a: set<T>, b: set<T>): (r: real)
    ensures 0.0 <= r <= 1.0
  {
    IntersectionWithinUnion(a, b);
    if |a + b| > 0 then
      RatioAtMostOne(|a * b|, |a + b|);
      (|a * b| as real) / (|a + b| as real)
    else 0.0
  }

  lemma RatioAtMostOne(x: nat, y: nat)
    requires x <= y && 0 < y
    ensures 0.0 <= (x as real) / (y as real) <= 1.0
  {
    var q := (x as real) / (y as real);
    assert q * (y as real) == x as real;
    ScaleAboveOne(q, y as real);
  }

  lemma ScaleAboveOne(q: real, y: real)
    requires y > 0.0
    ensures q > 1.0 ==> q * y > y
  {
    if q > 1.0 {
      assert (q - 1.0) * y > 0.0;
    }
  }

  lemma IntersectionWithinUnion<T>(a: set<T>, b: set<T>)
    ensures |a * b| <= |a + b|
  {
    assert a * b <= a + b;
    SubsetCardinality(a * b, a + b);
  }

  lemma SubsetCardinality<T>(x: set<T>, y: set<T>)
    requires x <= y
    ensures |x| <= |y|
    ensures |x| == |y| ==> x == y
  {
    assert y == x + (y - x);
    assert x * (y - x) == {};
    if |x| == |y| {
      assert |y - x| == 0;
      assert y - x == {};
    }
  }

  lemma JaccardSymmetric<T>(a: set<T>, b: set<T>)
    ensures Jaccard(a, b) == Jaccard(b, a)
  {
    assert a * b == b * a;
    assert a + b == b + a;
  }

  /** The ratio is 1 exactly for two equal, non-empty sets. */
  lemma JaccardOne<T>(a: set<T>, b: set<T>)
    requires a + b != {}
    ensures Jaccard(a, b) == 1.0 <==> a == b
  {
    assert |a + b| > 0;
    if Jaccard(a, b) == 1.0 {
      assert |a * b| == |a + b|;
      SubsetCardinality(a * b, a + b);
      assert a == b by {
        forall x | x in a + b ensures x in a && x in b {
          assert x in a * b;
        }
      }
    }
    if a == b {
      assert a * b == a + b;
    }
  }

  function WordSet(s: string): set<string> {
    set w | w in Words(s)
  }

  /** The word trigrams: every run of three consecutive words, joined by single spaces. */
  function WordTrigrams(ws: seq<string>): set<string> {
    set i | 0 <= i < |ws| - 2 :: WordTrigramAt(ws, i)
  }

  function WordTrigramAt(ws: seq<string>, i: nat): string
    requires i + 3 <= |ws|
  {
    Join(ws[i..i + 3], " ")
  }

  /** The alphanumeric and whitespace characters of `s`, in order. */
  function WordChars(s: string): (r: string)
    ensures |r| <= |s|
    ensures forall i :: 0 <= i < |r| ==> IsAlnum(r[i]) || IsSpace(r[i])
  {
    if s == [] then []
    else if IsAlnum(s[0]) || IsSpace(s[0]) then [s[0]] + WordChars(s[1..])
    else WordChars(s[1..])
  }

  /** A text of letters, digits and whitespace only is kept whole. */
  lemma {:induction false} WordCharsKeepsWords(s: string)
    requires forall i :: 0 <= i < |s| ==> IsAlnum(s[i]) || IsSpace(s[i])
    ensures WordChars(s) == s
    decreases |s|
  {
    if s != [] {
      WordCharsKeepsWords(s[1..]);
      assert s == [s[0]] + s[1..];
    }
  }

  /** Accented Latin letters count as letters: a Spanish text keeps its `ñ` and `á`. */
  lemma SpanishLettersKept()
    ensures WordChars("año más") == "año más"
  {
    var s := "año más";
    assert forall i :: 0 <= i < |s| ==> IsAlnum(s[i]) || IsSpace(s[i]);
    WordCharsKeepsWords(s);
  }

  /** The set of `s[i:i+3]`. */
  function CharTrigrams(s: string): set<string> {
    set i | 0 <= i < |s| - 2 :: CharTrigramAt(s, i)
  }

  function CharTrigramAt(s: string, i: nat): string
    requires i + 3 <= |s|
  {
    s[i..i + 3]
  }

  /** `calculate_similarity`: 0 when either text is empty, 1 for identical texts, the word-set
      ratio when either text has fewer than three words, and otherwise 0.7 times the
      word-trigram ratio plus 0.3 times the character-trigram ratio. */
  function Similarity(a: string, b: string): (r: real)
    ensures 0.0 <= r <= 1.0
    ensures a == [] || b == [] ==> r == 0.0
    ensures a != [] && a == b ==> r == 1.0
  {
    if a == [] || b == [] then 0.0
    else if a == b then 1.0
    else
      var w1, w2 := Words(a), Words(b);
      if |w1| < 3 || |w2| < 3 then Jaccard(WordSet(a), WordSet(b))
      else 0.7 * Jaccard(WordTrigrams(w1), WordTrigrams(w2))
           + 0.3 * Jaccard(CharTrigrams(WordChars(a)), CharTrigrams(WordChars(b)))
  }

  lemma SimilaritySymmetric(a: string, b: string)
    ensures Similarity(a, b) == Similarity(b, a)
  {
    JaccardSymmetric(WordSet(a), WordSet(b));
    JaccardSymmetric(WordTrigrams(Words(a)), WordTrigrams(Words(b)));
    JaccardSymmetric(CharTrigrams(WordChars(a)), CharTrigrams(WordChars(b)));
  }

  /** Two different texts of fewer than three words each are fully similar exactly when they
      have the same words. */
  lemma ShortTextsSimilarity(a: string, b: string)
    requires a != [] && b != [] && a != b
    requires |Words(a)| < 3 || |Words(b)| < 3
    requires WordSet(a) + WordSet(b) != {}
    ensures Similarity(a, b) == Jaccard(WordSet(a), WordSet(b))
    ensures Similarity(a, b) == 1.0 <==> WordSet(a) == WordSet(b)
  {
    JaccardOne(WordSet(a), WordSet(b));
  }

  // ---------------------------------------------------------------- saving an issue

  function Stripped(issue: Improvement): Improvement {
    Improvement(Strip(issue.original), Strip(issue.translated), Strip(issue.reason))
  }

  predicate Complete(i: Improvement) {
    i.original != [] && i.translated != [] && i.reason != []
  }

  /** An existing entry that makes the new, stripped issue `candidate` redundant: the same
      original and translation, or a similar reason together with a similar original or
      a similar translation. */
  predicate Redundant(existing: Improvement, candidate: Improvement) {
    var e := Stripped(existing);
    (candidate.original == e.original && candidate.translated == e.translated)
    || (Similarity(Lower(candidate.reason), Lower(e.reason)) > 0.7
        && (Similarity(Lower(candidate.original), Lower(e.original)) > 0.6
            || Similarity(Lower(candidate.translated), Lower(e.translated)) > 0.6))
  }

  predicate AnyRedundant(items: seq<Improvement>, candidate: Improvement) {
    exists k :: 0 <= k < |items| && Redundant(items[k], candidate)
  }


  /** `save_prompt_improvement` on one file's contents. */
  function Saved(file: HintFile, issue: Improvement): HintFile {
    var candidate := Stripped(issue);
    if !Complete(candidate) then file
    else match file
      case Unreadable => file
      case NotAList => file
      case Missing => Hints([candidate])
      case Hints(items) => if AnyRedundant(items, candidate) then file else Hints(items + [candidate])
  }

  /** Saving either changes nothing or appends the stripped issue to the existing entries;
      existing entries are never altered or removed. */
  lemma SavedAppendsOrKeeps(file: HintFile, issue: Improvement)
    ensures Saved(file, issue) == file
         || (Saved(file, issue).Hints? && Saved(file, issue).items == Existing(file) + [Stripped(issue)])
  {
  }

  /** Saving appends exactly when the stripped issue is complete, the file holds a list (or
      does not exist yet) and no existing entry makes the issue redundant. */
  lemma SavedIffFresh(file: HintFile, issue: Improvement)
    ensures Saved(file, issue) != file <==>
      Complete(Stripped(issue)) && (file.Missing? || file.Hints?)
      && !AnyRedundant(Existing(file), Stripped(issue))
  {
    if file.Hints? && Saved(file, issue) != file {
      assert |Saved(file, issue).items| == |file.items| + 1;
    }
  }

  lemma SavedIntoMissing(issue: Improvement)
    requires Complete(Stripped(issue))
    ensures Saved(Missing, issue) == Hints([Stripped(issue)])
  {
  }

  lemma SavedIntoHints(items: seq<Improvement>, issue: Improvement)
    requires Complete(Stripped(issue)) && !AnyRedundant(items, Stripped(issue))
    ensures Saved(Hints(items), issue) == Hints(items + [Stripped(issue)])
  {
  }

  lemma SavedWhenRedundant(file: HintFile, issue: Improvement)
    requires AnyRedundant(Existing(file), Stripped(issue))
    ensures Saved(file, issue) == file
  {
  }

  /** The entries a readable file already holds. */
  function Existing(file: HintFile): seq<Improvement> {
    if file.Hints? then file.items else []
  }

  /** An incomplete issue is never stored. */
  lemma IncompleteNeverSaved(file: HintFile, issue: Improvement)
    requires Strip(issue.original) == [] || Strip(issue.translated) == [] || Strip(issue.reason) == []
    ensures Saved(file, issue) == file
  {
  }

  /** Saving the same issue twice stores it once: the entry saved first is an exact match
      for the second. */
  lemma SaveIdempotent(file: HintFile, issue: Improvement)
    ensures Saved(Saved(file, issue), issue) == Saved(file, issue)
  {
    var candidate := Stripped(issue);
    var once := Saved(file, issue);
    if once != file {
      SavedAppendsOrKeeps(file, issue);
      StripIdempotent(issue.original);
      StripIdempotent(issue.translated);
      StripIdempotent(issue.reason);
      var last := |once.items| - 1;
      assert once.items[last] == candidate;
      assert Stripped(candidate) == candidate;
      assert Redundant(once.items[last], candidate);
    } else {
      assert Saved(once, issue) == Saved(file, issue);
    }
  }

  // ---------------------------------------------------------------- rendering the hints

  const Header := "\n\nBased on previous translation issues, pay special attention to these cases:\n"

  /** The block for the entry numbered `idx`, or nothing when a field is empty. */
  function EntryText(idx: nat, e: Improvement): string {
    if Complete(e) then
      NatToString(idx) + ". Issue: " + e.reason + "\n"
      + "   Original: " + e.original + "\n"
      + "   Incorrect translation: " + e.translated + "\n"
      + "   Avoid this mistake.\n\n"
    else ""
  }

  /** The blocks of the first `n` entries, numbered from 1. */
  function Entries(recent: seq<Improvement>, n: nat): string
    requires n <= |recent|
  {
    if n == 0 then "" else Entries(recent, n - 1) + EntryText(n, recent[n - 1])
  }

  /** `improvements[-10:]`. */
  function LastTen(items: seq<Improvement>): (r: seq<Improvement>)
    ensures |r| == if |items| < 10 then |items| else 10
    ensures r == items[|items| - |r|..]
  {
    if |items| <= 10 then items else items[|items| - 10..]
  }

  /** `load_prompt_improvements`: nothing unless the file holds a non-empty list, else the
      header and the blocks of the last ten entries. */
  function HintText(file: HintFile): string {
    match file
    case Hints(items) =>
      if items == [] then "" else Header + Entries(LastTen(items), |LastTen(items)|)
    case _ => ""
  }

  lemma HintTextEmptyUnlessHints(file: HintFile)
    ensures HintText(file) == "" <==> !file.Hints? || file.items == []
    ensures file.Hints? && file.items != [] ==> StartsWith(HintText(file), Header)
  {
    if file.Hints? && file.items != [] {
      var t := HintText(file);
      assert t[..|Header|] == Header;
    }
  }

  /** Only the ten most recent entries count: older ones never reach the prompt. */
  lemma OnlyLastTenRendered(older: seq<Improvement>, recent: seq<Improvement>)
    requires |recent| >= 10
    ensures HintText(Hints(older + recent)) == HintText(Hints(recent))
  {
    LastTenOfSuffix(older, recent);
  }

  lemma LastTenOfSuffix(older: seq<Improvement>, recent: seq<Improvement>)
    requires |recent| >= 10
    ensures LastTen(older + recent) == LastTen(recent)
  {
    var all := older + recent;
    assert all[|all| - 10..] == recent[|recent| - 10..];
  }

  /** A saved issue is the last block the prompt shows, numbered after the entries before it. */
  lemma SavedIssueRendered(file: HintFile, issue: Improvement)
    requires Saved(file, issue) != file
    ensures EndsWith(HintText(Saved(file, issue)),
                     EntryText(|LastTen(Saved(file, issue).items)|, Stripped(issue)))
    ensures EntryText(|LastTen(Saved(file, issue).items)|, Stripped(issue)) != ""
  {
    SavedAppendsOrKeeps(file, issue);
    SavedIffFresh(file, issue);
    var items := Saved(file, issue).items;
    LastRendered(items);
  }

  /** The last of the rendered entries ends the hint text. */
  lemma LastRendered(items: seq<Improvement>)
    requires items != []
    ensures EndsWith(HintText(Hints(items)), EntryText(|LastTen(items)|, items[|items| - 1]))
    ensures Complete(items[|items| - 1]) ==> EntryText(|LastTen(items)|, items[|items| - 1]) != ""
  {
    var r := LastTen(items);
    var n := |r|;
    assert r[n - 1] == items[|items| - 1];
    AppendAssociative(Header, Entries(r, n - 1), EntryText(n, r[n - 1]));
    EndsWithAppend(Header + Entries(r, n - 1), EntryText(n, r[n - 1]));
  }

  lemma EndsWithAppend(a: string, b: string)
    ensures EndsWith(a + b, b)
  {
    assert (a + b)[|a + b| - |b|..] == b;
  }

  // ---------------------------------------------------------------- the store

  class HintStore {
    /** The hint file of each language; a language without an entry has no file. */
    var files: map<string, HintFile>

    constructor (files: map<string, HintFile>)
      ensures this.files == files
    {
      this.files := files;
    }

    function File(lang: string): HintFile
      reads this
    {
      if lang in files then files[lang] else Missing
    }

    /** `save_prompt_improvement(lang, issue)`. */
    method Save(lang: string, issue: Improvement)
      modifies this
      ensures File(lang) == Saved(old(File(lang)), issue)
      ensures files == old(files) || files == old(files)[lang := File(lang)]
      ensures forall l :: l != lang ==> File(l) == old(File(l))
    {
      var before := File(lang);
      var candidate := Stripped(issue);
      if candidate.original == "" || candidate.translated == "" || candidate.reason == "" {
        return;
      }
      match before {
        case Unreadable => return;
        case NotAList => return;
        case Missing =>
          SavedIntoMissing(issue);
          files := files[lang := Hints([candidate])];
        case Hints(items) =>
          var redundant := FindRedundant(items, candidate);
          if redundant {
            SavedWhenRedundant(before, issue);
            return;
          }
          SavedIntoHints(items, issue);
          files := files[lang := Hints(items + [candidate])];
      }
    }

    /** `load_prompt_improvements(lang)`: the prompt text of the language's hint file. */
    method Load(lang: string) returns (context: string)
      ensures context == HintText(File(lang))
    {
      context := "";
      var file := File(lang);
      if !file.Hints? || file.items == [] {
        return;
      }
      var entries := RenderEntries(LastTen(file.items));
      context := Header + entries;
    }
  }

  /** The scan over the existing entries, stopping at the first one that makes the issue
      redundant. */
  lemma NoneRedundantExtend(existing: seq<Improvement>, i: nat, candidate: Improvement)
    requires i < |existing|
    requires forall k :: 0 <= k < i ==> !Redundant(existing[k], candidate)
    requires !Redundant(existing[i], candidate)
    ensures forall k :: 0 <= k < i + 1 ==> !Redundant(existing[k], candidate)
  {
  }

  method FindRedundant(existing: seq<Improvement>, candidate: Improvement) returns (found: bool)
    ensures found == AnyRedundant(existing, candidate)
  {
    var i := 0;
    while i < |existing|
      invariant i <= |existing|
      invariant forall k :: 0 <= k < i ==> !Redundant(existing[k], candidate)
    {
      var redundant := IsRedundant(existing[i], candidate);
      if redundant {
        return true;
      }
      NoneRedundantExtend(existing, i, candidate);
      i := i + 1;
    }
    return false;
  }

  /** The numbered entries for `recent`, built one entry at a time. */
  method RenderEntries(recent: seq<Improvement>) returns (entries: string)
    ensures entries == Entries(recent, |recent|)
  {
    entries := "";
    var idx := 1;
    while idx <= |recent|
      invariant 1 <= idx <= |recent| + 1
      invariant entries == Entries(recent, idx - 1)
    {
      entries := AppendEntry(entries, idx, recent[idx - 1]);
      idx := idx + 1;
    }
  }

  method AppendEntry(context: string, idx: nat, e: Improvement) returns (r: string)
    ensures r == context + EntryText(idx, e)
  {
    r := context;
    if e.original != "" && e.translated != "" && e.reason != "" {
      r := r + NatToString(idx) + ". Issue: " + e.reason + "\n";
      r := r + "   Original: " + e.original + "\n";
      r := r + "   Incorrect translation: " + e.translated + "\n";
      r := r + "   Avoid this mistake.\n\n";
    }
  }

  /** One turn of the duplicate scan: the exact-match test, then the similarity test. */
  method IsRedundant(existing: Improvement, candidate: Improvement) returns (r: bool)
    ensures r == Redundant(existing, candidate)
  {
    var e := Stripped(existing);
    if candidate.original == e.original && candidate.translated == e.translated {
      return true;
    }
    var reasonSimilarity := Similarity(Lower(candidate.reason), Lower(e.reason));
    var originalSimilarity := Similarity(Lower(candidate.original), Lower(e.original));
    var translatedSimilarity := Similarity(Lower(candidate.translated), Lower(e.translated));
    r := reasonSimilarity > 0.7 && (originalSimilarity > 0.6 || translatedSimilarity > 0.6);
  }
}
