/** The markdown segmenter and the frontmatter codec of `utils/file_utils.py`.

    A document is cut into heading-delimited sections by a line scanner that
    tracks code fences, tables and lists; the sections are then packed greedily
    into parts whose cost stays within a budget.  The cost of a text is
    `len(text) / 4` tokens, so "cost <= max_tokens" is written here as
    "length <= 4 * max_tokens".  The `"\n\n"` separators placed between the
    pieces of a part are not counted, exactly as in the source. */
module FileUtils {
  import opened Strings
  import opened Wrappers

  // ================================================================ frontmatter

  const Marker: string := "---"

  /** The triple `(has_frontmatter, frontmatter, main_content)`. */
  datatype Extracted = Extracted(hasFrontmatter: bool, frontmatter: Option<string>, body: string)

  /** A frontmatter block that extraction can return: it opens and closes with `---`
      and has no other `---` from index 3 on. */
  predicate WellFormedFrontmatter(fm: string) {
    6 <= |fm| && StartsWith(fm, Marker) && EndsWith(fm, Marker)
    && forall j :: 3 <= j < |fm| - 3 ==> !OccursAt(fm, Marker, j)
  }

  lemma OccursAtPrefix(s: string, t: string, p: string, j: int)
    requires 0 <= j && j + |p| <= |s|
    ensures OccursAt(s + t, p, j) <==> OccursAt(s, p, j)
  {
    assert (s + t)[j..j + |p|] == s[j..j + |p|];
  }

  /** `extract_frontmatter`: a document opening with `---` has frontmatter up to and
      including the first `---` found from index 3; the rest, stripped, is the body.
      Without such a block the document is returned unchanged. */
  function ExtractFrontmatter(content: string): (r: Extracted)
    ensures r.hasFrontmatter <==> r.frontmatter.Some?
    ensures !r.hasFrontmatter ==>
              r.body == content
              && (!StartsWith(content, Marker) || forall j :: 3 <= j ==> !OccursAt(content, Marker, j))
    ensures r.hasFrontmatter ==>
              var fm := r.frontmatter.value;
              |fm| <= |content| && content[..|fm|] == fm
              && WellFormedFrontmatter(fm)
              && r.body == Strip(content[|fm|..])
  {
    if StartsWith(content, Marker) then
      var e := Find(content, Marker, 3);
      if e != -1 then
        var fm := content[..e + 3];
        assert StartsWith(fm, Marker) by { assert fm[..3] == content[..3]; }
        assert EndsWith(fm, Marker) by { assert fm[|fm| - 3..] == content[e..e + 3]; }
        forall j | 3 <= j < |fm| - 3 ensures !OccursAt(fm, Marker, j) {
          OccursAtPrefix(fm, content[e + 3..], Marker, j);
          assert fm + content[e + 3..] == content;
        }
        Extracted(true, Some(fm), Strip(content[e + 3..]))
      else Extracted(false, None, content)
    else Extracted(false, None, content)
  }

  /** `restore_frontmatter`: a present, non-empty frontmatter is put back in front of
      the content, separated by a blank line. */
  function RestoreFrontmatter(frontmatter: Option<string>, translated: string): (r: string)
    ensures frontmatter.None? || frontmatter.value == "" ==> r == translated
    ensures frontmatter.Some? && frontmatter.value != "" ==>
              StartsWith(r, frontmatter.value + "\n\n") && EndsWith(r, translated)
              && |r| == |frontmatter.value| + 2 + |translated|
  {
    if frontmatter.Some? && frontmatter.value != "" then
      var r := frontmatter.value + "\n\n" + translated;
      assert r[..|frontmatter.value| + 2] == frontmatter.value + "\n\n";
      assert r[|r| - |translated|..] == translated;
      r
    else translated
  }

  /** Restoring and extracting again gives back the frontmatter and a stripped body. */
  lemma {:induction false} ExtractAfterRestore(fm: string, body: string)
    requires WellFormedFrontmatter(fm) && Strip(body) == body
    ensures ExtractFrontmatter(RestoreFrontmatter(Some(fm), body)) == Extracted(true, Some(fm), body)
  {
    AppendAssociative(fm, "\n\n", body);
    ExtractJoined(fm, "\n\n" + body);
    SeparatorStrips(body);
  }

  lemma ExtractJoined(fm: string, rest: string)
    requires WellFormedFrontmatter(fm)
    ensures ExtractFrontmatter(fm + rest) == Extracted(true, Some(fm), Strip(rest))
  {
    ClosingMarkerFound(fm, rest);
    ExtractAt(fm + rest, |fm| - 3);
    assert (fm + rest)[..|fm|] == fm;
    assert (fm + rest)[|fm|..] == rest;
  }

  lemma SeparatorStrips(body: string)
    ensures Strip("\n\n" + body) == Strip(body)
  {
    assert "\n\n" == ['\n', '\n'];
    StripBlankPrefix("\n\n", body);
  }

  /** Extraction cuts right after the closing marker the search finds. */
  lemma ExtractAt(content: string, e: nat)
    requires StartsWith(content, Marker) && Find(content, Marker, 3) == e
    ensures e + 3 <= |content|
    ensures ExtractFrontmatter(content) == Extracted(true, Some(content[..e + 3]), Strip(content[e + 3..]))
  {
  }

  /** In `fm + rest` the search for the closing marker stops at the end of `fm`. */
  lemma ClosingMarkerFound(fm: string, rest: string)
    requires WellFormedFrontmatter(fm)
    ensures StartsWith(fm + rest, Marker)
    ensures Find(fm + rest, Marker, 3) == |fm| - 3
  {
    var c := fm + rest;
    assert c[..3] == fm[..3];
    assert c[|fm| - 3..|fm|] == fm[|fm| - 3..];
    assert OccursAt(c, Marker, |fm| - 3);
    forall j | 3 <= j < |fm| - 3
      ensures !OccursAt(c, Marker, j)
    {
      OccursAtPrefix(fm, rest, Marker, j);
    }
  }

  /** Restoring what was extracted and extracting again changes nothing: the pair is
      a normal form. */
  lemma ExtractRestoreExtract(content: string)
    ensures var x := ExtractFrontmatter(content);
            ExtractFrontmatter(RestoreFrontmatter(x.frontmatter, x.body)) == x
  {
    var x := ExtractFrontmatter(content);
    if x.hasFrontmatter {
      StripIdempotent(content[|x.frontmatter.value|..]);
      ExtractAfterRestore(x.frontmatter.value, x.body);
    }
  }

  /** Without frontmatter, extraction followed by restoration reproduces the document exactly. */
  lemma RestoreWithoutFrontmatter(content: string)
    requires !StartsWith(content, Marker)
    ensures var x := ExtractFrontmatter(content);
            !x.hasFrontmatter && RestoreFrontmatter(x.frontmatter, x.body) == content
  {
  }

  // ================================================================ line classes

  /** A code-fence line: once stripped, it opens with three backticks. */
  predicate IsFenceLine(line: string) {
    StartsWith(Strip(line), "```")
  }

  /** A table line: once stripped, it opens with `|`, and another `|` follows the first character. */
  predicate IsTableLine(line: string) {
    StartsWith(Strip(line), "|") && |line| >= 1 && Contains(line[1..], "|")
  }

  /** A list line: optional leading whitespace, a bullet (`-`, `*` or `+`), then whitespace. */
  predicate IsListLine(line: string) {
    var t := LStrip(line);
    |t| >= 2 && t[0] in "-*+" && IsSpace(t[1])
  }

  /** The regular expression `^(#{1,6})\s+(.+)$` matching a line (which holds no `\n`)
      with its first group of length `k`. */
  predicate HeadingMatch(line: string, k: int) {
    1 <= k <= 6 && k + 2 <= |line| && IsSpace(line[k])
    && forall i :: 0 <= i < k ==> line[i] == '#'
  }

  function LeadingHashes(s: string): (n: nat)
    ensures n <= |s|
    ensures forall i :: 0 <= i < n ==> s[i] == '#'
    ensures n < |s| ==> s[n] != '#'
  {
    if s != [] && s[0] == '#' then 1 + LeadingHashes(s[1..]) else 0
  }

  /** The heading level of a line: the length of the first group of the heading
      pattern, or 0 when the line is not a heading. */
  function HeadingLevel(line: string): (n: nat)
    ensures n <= 6
    ensures n > 0 ==> HeadingMatch(line, n)
    ensures n == 0 ==> forall k :: !HeadingMatch(line, k)
  {
    var h := LeadingHashes(line);
    if 1 <= h <= 6 && h + 2 <= |line| && IsSpace(line[h]) then h else 0
  }

  /** A heading line is not a fence, table, list or blank line. */
  lemma HeadingIsPlain(line: string)
    requires HeadingLevel(line) > 0
    ensures !IsFenceLine(line) && !IsTableLine(line) && !IsListLine(line) && Strip(line) != ""
  {
    assert line[0] == '#';
    StripKeepsFirst(line);
  }

  // ================================================================ sectioning

  /** What the line loop looks at in a line: whether it is a fence, table, blank or
      list line, and its heading level. */
  datatype LineKind = LineKind(fence: bool, table: bool, blank: bool, list: bool, heading: nat)

  function KindOf(line: string): LineKind {
    LineKind(IsFenceLine(line), IsTableLine(line), BlankLine(line), IsListLine(line), HeadingLevel(line))
  }

  function Kinds(lines: seq<string>): (ks: seq<LineKind>)
    ensures |ks| == |lines|
  {
    seq(|lines|, i requires 0 <= i < |lines| => KindOf(lines[i]))
  }

  /** The line after line `i` exists and is a list line. */
  predicate NextIsList(ks: seq<LineKind>, i: nat) {
    i + 1 < |ks| && ks[i + 1].list
  }

  /** The flags of the line loop: inside a code fence, a table, a list, and the level
      of the last heading seen (0 before any). */
  datatype ScanState = ScanState(inCode: bool, inTable: bool, inList: bool, level: nat)

  const Start := ScanState(false, false, false, 0)

  /** One turn of the line loop: the next state, and whether the line starts a new
      section (only possible when the current section holds lines already). */
  function Step(st: ScanState, k: LineKind, nextIsList: bool, sectionEmpty: bool): (ScanState, bool) {
    if k.fence then (st.(inCode := !st.inCode), false)
    else if st.inCode then (st, false)
    else if k.table then (st.(inTable := true), false)
    else if st.inTable && k.blank then (st.(inTable := false), false)
    else if k.list then (st.(inList := true), false)
    else if st.inList && k.blank then (if nextIsList then st else st.(inList := false), false)
    else if k.heading > 0 then
      (st.(level := k.heading), !sectionEmpty && (k.heading <= st.level || st.level == 0))
    else (st, false)
  }

  /** A list of finished groups and the group being filled (`sections` and
      `current_section`, or `parts` and `current_part`). */
  datatype Packer = Packer(done: seq<seq<string>>, cur: seq<string>)

  const Empty := Packer([], [])

  /** The finished groups once the group being filled is closed, if it holds anything. */
  function Close(p: Packer): seq<seq<string>> {
    if p.cur == [] then p.done else p.done + [p.cur]
  }

  /** Adds `x` to the group being filled, after closing that group when `cut` holds. */
  function Place(p: Packer, cut: bool, x: string): Packer {
    if cut then Packer(p.done + [p.cur], [x]) else Packer(p.done, p.cur + [x])
  }

  /** The line loop's flags together with its sections. */
  datatype Scan = Scan(state: ScanState, groups: Packer)

  /** The line loop of `split_content` after the first `n` lines: the flags, the
      sections closed so far and the current section. */
  function ScanFold(lines: seq<string>, ks: seq<LineKind>, n: nat): (s: Scan)
    requires |ks| == |lines| && n <= |lines|
    ensures (s.groups.cur == []) == (n == 0)
    ensures forall k :: 0 <= k < |s.groups.done| ==> s.groups.done[k] != []
  {
    if n == 0 then Scan(Start, Empty) else
      var s := ScanFold(lines, ks, n - 1);
      var r := Step(s.state, ks[n - 1], NextIsList(ks, n - 1), s.groups.cur == []);
      Scan(r.0, Place(s.groups, r.1, lines[n - 1]))
  }

  /** A new section starts at line `i`. */
  predicate Cut(lines: seq<string>, ks: seq<LineKind>, i: nat)
    requires |ks| == |lines| && i < |lines|
  {
    var s := ScanFold(lines, ks, i);
    Step(s.state, ks[i], NextIsList(ks, i), s.groups.cur == []).1
  }

  /** The first `n` lines, grouped into sections. */
  function Groups(lines: seq<string>, ks: seq<LineKind>, n: nat): (g: seq<seq<string>>)
    requires |ks| == |lines| && n <= |lines|
    ensures (n == 0) == (g == [])
    ensures forall k :: 0 <= k < |g| ==> g[k] != []
  {
    Close(ScanFold(lines, ks, n).groups)
  }

  /** A cut never happens at the first line, whose section is still empty. */
  lemma NoCutAtFirstLine(lines: seq<string>, ks: seq<LineKind>)
    requires |ks| == |lines| > 0
    ensures !Cut(lines, ks, 0)
  {
  }

  /** Each group of lines joined with `"\n"` (or another separator). */
  function JoinEach(gs: seq<seq<string>>, sep: string): (r: seq<string>)
    ensures |r| == |gs|
  {
    if gs == [] then [] else JoinEach(gs[..|gs| - 1], sep) + [Join(gs[|gs| - 1], sep)]
  }

  lemma JoinEachSnoc(gs: seq<seq<string>>, x: seq<string>, sep: string)
    ensures JoinEach(gs + [x], sep) == JoinEach(gs, sep) + [Join(x, sep)]
  {
    assert (gs + [x])[..|gs|] == gs;
  }

  lemma {:induction false} JoinEachConcat(a: seq<seq<string>>, b: seq<seq<string>>, sep: string)
    ensures JoinEach(a + b, sep) == JoinEach(a, sep) + JoinEach(b, sep)
    decreases |b|
  {
    if b == [] {
      assert a + b == a;
    } else {
      var b' := b[..|b| - 1];
      var x := b[|b| - 1];
      assert b == b' + [x];
      assert a + b == (a + b') + [x];
      JoinEachSnoc(a + b', x, sep);
      JoinEachSnoc(b', x, sep);
      JoinEachConcat(a, b', sep);
    }
  }

  /** The sections `split_content` builds from the lines of a document. */
  function SectionsOf(lines: seq<string>): seq<string> {
    JoinEach(Groups(lines, Kinds(lines), |lines|), "\n")
  }

  /** Placing a line appends it to the flattened groups, whether or not a group is closed. */
  lemma PlaceFlatten(p: Packer, cut: bool, x: string)
    ensures Flatten(Place(p, cut, x).done) + Place(p, cut, x).cur == Flatten(p.done) + p.cur + [x]
  {
    if cut {
      assert (p.done + [p.cur])[..|p.done|] == p.done;
    }
  }

  /** The same, for a placement whose prefix is known. */
  lemma PlaceExtends(p: Packer, cut: bool, x: string, xs: seq<string>, n: nat)
    requires 0 < n <= |xs| && x == xs[n - 1]
    requires Flatten(p.done) + p.cur == xs[..n - 1]
    ensures Flatten(Place(p, cut, x).done) + Place(p, cut, x).cur == xs[..n]
  {
    PlaceFlatten(p, cut, x);
    assert xs[..n] == xs[..n - 1] + [xs[n - 1]];
  }

  lemma {:induction false} ScanFoldFlatten(lines: seq<string>, ks: seq<LineKind>, n: nat)
    requires |ks| == |lines| && n <= |lines|
    ensures Flatten(ScanFold(lines, ks, n).groups.done) + ScanFold(lines, ks, n).groups.cur == lines[..n]
  {
    if n > 0 {
      var s := ScanFold(lines, ks, n - 1);
      var r := Step(s.state, ks[n - 1], NextIsList(ks, n - 1), s.groups.cur == []);
      ScanFoldFlatten(lines, ks, n - 1);
      PlaceExtends(s.groups, r.1, lines[n - 1], lines, n);
    }
  }

  /** Every line lands in exactly one section, in order. */
  lemma GroupsFlatten(lines: seq<string>, ks: seq<LineKind>, n: nat)
    requires |ks| == |lines| && n <= |lines|
    ensures Flatten(Groups(lines, ks, n)) == lines[..n]
  {
    var p := ScanFold(lines, ks, n).groups;
    ScanFoldFlatten(lines, ks, n);
    if p.cur != [] {
      assert (p.done + [p.cur])[..|p.done|] == p.done;
    }
  }

  lemma {:induction false} FlattenNonEmpty<T>(gs: seq<seq<T>>)
    requires gs != [] && forall k :: 0 <= k < |gs| ==> gs[k] != []
    ensures Flatten(gs) != []
  {
  }

  /** Joining non-empty groups and then the results is joining all their members. */
  lemma {:induction false} JoinJoinEach(gs: seq<seq<string>>, sep: string)
    requires forall k :: 0 <= k < |gs| ==> gs[k] != []
    ensures Join(JoinEach(gs, sep), sep) == Join(Flatten(gs), sep)
  {
    if gs != [] {
      var a := gs[..|gs| - 1];
      var x := gs[|gs| - 1];
      assert gs == a + [x];
      JoinEachSnoc(a, x, sep);
      if a == [] {
        assert JoinEach(gs, sep) == [Join(x, sep)];
        assert Flatten(gs) == x;
      } else {
        assert Flatten(gs) == Flatten(a) + x;
        JoinJoinEach(a, sep);
        JoinSnoc(JoinEach(a, sep), Join(x, sep), sep);
        FlattenNonEmpty(a);
        JoinConcat(Flatten(a), x, sep);
      }
    }
  }

  /** Sectioning is lossless: the sections joined with `"\n"` are the document again. */
  lemma SectioningLossless(content: string)
    ensures Join(SectionsOf(Split(content, "\n")), "\n") == content
  {
    var lines := Split(content, "\n");
    JoinJoinEach(Groups(lines, Kinds(lines), |lines|), "\n");
    GroupsFlatten(lines, Kinds(lines), |lines|);
    assert lines[..|lines|] == lines;
    JoinSplit(content, "\n");
  }

  /** An odd number of fence lines among the first `n` lines. */
  predicate OddFences(lines: seq<string>, n: nat)
    requires n <= |lines|
  {
    if n == 0 then false
    else if IsFenceLine(lines[n - 1]) then !OddFences(lines, n - 1)
    else OddFences(lines, n - 1)
  }

  /** An odd number of fence kinds among the first `n`. */
  predicate OddFenceKinds(ks: seq<LineKind>, n: nat)
    requires n <= |ks|
  {
    if n == 0 then false
    else if ks[n - 1].fence then !OddFenceKinds(ks, n - 1)
    else OddFenceKinds(ks, n - 1)
  }

  lemma {:induction false} InCodeIffOddFenceKinds(lines: seq<string>, ks: seq<LineKind>, i: nat)
    requires |ks| == |lines| && i <= |lines|
    ensures ScanFold(lines, ks, i).state.inCode <==> OddFenceKinds(ks, i)
  {
    if i > 0 { InCodeIffOddFenceKinds(lines, ks, i - 1); }
  }

  /** The fence flags of `Kinds(lines)` are those of the lines. */
  lemma KindsFences(lines: seq<string>)
    ensures forall j :: 0 <= j < |lines| ==> Kinds(lines)[j].fence == IsFenceLine(lines[j])
  {
  }

  /** The heading levels of `Kinds(lines)` are those of the lines. */
  lemma KindsHeadings(lines: seq<string>)
    ensures forall j :: 0 <= j < |lines| ==> Kinds(lines)[j].heading == HeadingLevel(lines[j])
  {
  }

  lemma {:induction false} OddFencesOfKinds(lines: seq<string>, ks: seq<LineKind>, i: nat)
    requires i <= |lines| == |ks|
    requires forall j :: 0 <= j < |lines| ==> ks[j].fence == IsFenceLine(lines[j])
    ensures OddFenceKinds(ks, i) <==> OddFences(lines, i)
  {
    if i > 0 { OddFencesOfKinds(lines, ks, i - 1); }
  }

  /** A line is inside a code block exactly when an odd number of fence lines precede it. */
  lemma InCodeIffOddFences(lines: seq<string>, i: nat)
    requires i <= |lines|
    ensures ScanFold(lines, Kinds(lines), i).state.inCode <==> OddFences(lines, i)
  {
    KindsFences(lines);
    InCodeIffOddFenceKinds(lines, Kinds(lines), i);
    OddFencesOfKinds(lines, Kinds(lines), i);
  }

  /** The section rule: a section starts at line `i` exactly when `i > 0`, the line is
      outside any code block, it is a heading, and its level is at most the current
      level or no heading has been seen.  Table and list flags play no part. */
  lemma CutRule(lines: seq<string>, i: nat)
    requires i < |lines|
    ensures Cut(lines, Kinds(lines), i) <==>
              var h := HeadingLevel(lines[i]);
              var lvl := ScanFold(lines, Kinds(lines), i).state.level;
              i > 0 && !OddFences(lines, i) && h > 0 && (h <= lvl || lvl == 0)
  {
    InCodeIffOddFences(lines, i);
    var k := Kinds(lines)[i];
    assert k == KindOf(lines[i]);
    if HeadingLevel(lines[i]) > 0 {
      HeadingIsPlain(lines[i]);
      BlankLineIffStripEmpty(lines[i]);
      assert !k.fence && !k.table && !k.blank && !k.list;
    }
  }

  /** Every group but the first of a fold opens with a heading. */
  predicate OpenWithHeadings(gs: seq<seq<string>>) {
    forall k :: 0 < k < |gs| ==> gs[k] != [] && HeadingLevel(gs[k][0]) > 0
  }

  lemma {:induction false} ScanFoldHeadings(lines: seq<string>, ks: seq<LineKind>, n: nat)
    requires |ks| == |lines| && n <= |lines|
    requires forall j :: 0 <= j < |lines| ==> ks[j].heading == HeadingLevel(lines[j])
    ensures OpenWithHeadings(Groups(lines, ks, n))
  {
    if n > 0 {
      ScanFoldHeadings(lines, ks, n - 1);
      var p := ScanFold(lines, ks, n - 1).groups;
      var q := ScanFold(lines, ks, n).groups;
      if Cut(lines, ks, n - 1) {
        assert ks[n - 1].heading > 0;
        assert Close(q) == Close(p) + [[lines[n - 1]]];
      } else if n - 1 > 0 {
        var c := Close(p);
        assert Close(q) == c[..|c| - 1] + [c[|c| - 1] + [lines[n - 1]]];
      }
    }
  }

  /** Every section after the first opens with a heading line. */
  lemma SectionsOpenWithHeadings(lines: seq<string>)
    ensures OpenWithHeadings(Groups(lines, Kinds(lines), |lines|))
  {
    KindsHeadings(lines);
    ScanFoldHeadings(lines, Kinds(lines), |lines|);
  }

  /** `split_content`'s line loop over the lines and their classification `kinds`
      (`Kinds(lines)`): the flags are updated line by line, and a section is closed
      before a heading of the same or a higher rank outside code blocks. */
  method ScanSections(lines: seq<string>, kinds: seq<LineKind>) returns (sections: seq<string>)
    requires |kinds| == |lines|
    ensures sections == JoinEach(Groups(lines, kinds, |lines|), "\n")
  {
    ghost var done: seq<seq<string>> := [];
    sections := [];
    var current: seq<string> := [];
    var st := Start;
    var i := 0;
    while i < |lines|
      invariant 0 <= i <= |lines|
      invariant Scan(st, Packer(done, current)) == ScanFold(lines, kinds, i)
      invariant sections == JoinEach(done, "\n")
    {
      var r := Step(st, kinds[i], NextIsList(kinds, i), current == []);
      st := r.0;
      var cut := r.1;
      if cut {
        JoinEachSnoc(done, current, "\n");
        sections := sections + [Join(current, "\n")];
        done := done + [current];
        current := [];
      }
      current := current + [lines[i]];
      i := i + 1;
    }
    sections := CloseGroups(sections, done, current, "\n");
  }

  /** The joined groups once the current group, if any, is closed too. */
  method CloseGroups(joined: seq<string>, ghost done: seq<seq<string>>, current: seq<string>, sep: string)
    returns (r: seq<string>)
    requires joined == JoinEach(done, sep)
    ensures r == JoinEach(Close(Packer(done, current)), sep)
  {
    r := joined;
    if current != [] {
      JoinEachSnoc(done, current, sep);
      r := joined + [Join(current, sep)];
    }
  }

  // ================================================================ packing

  /** The summed lengths of some texts (`current_tokens`, times 4). */
  function SumLen(xs: seq<string>): nat {
    if xs == [] then 0 else SumLen(xs[..|xs| - 1]) + |xs[|xs| - 1]|
  }

  lemma SumLenSnoc(xs: seq<string>, x: string)
    ensures SumLen(xs + [x]) == SumLen(xs) + |x|
  {
    assert (xs + [x])[..|xs|] == xs;
  }

  /** Appends `x` to the part being filled, after closing that part when it holds
      something and `x` would take it over the budget `b`. */
  function Feed(p: Packer, x: string, b: int): Packer {
    Place(p, p.cur != [] && SumLen(p.cur) + |x| > b, x)
  }

  /** The greedy packing loop after the first `n` texts of `xs`. */
  function FeedAll(xs: seq<string>, n: nat, b: int): (p: Packer)
    requires n <= |xs|
    ensures (p.cur == []) == (n == 0)
    ensures forall k :: 0 <= k < |p.done| ==> p.done[k] != []
  {
    if n == 0 then Empty else Feed(FeedAll(xs, n - 1, b), xs[n - 1], b)
  }

  /** The groups greedy packing makes of `xs`. */
  function PackGroups(xs: seq<string>, b: int): (g: seq<seq<string>>)
    ensures forall k :: 0 <= k < |g| ==> g[k] != []
  {
    Close(FeedAll(xs, |xs|, b))
  }

  /** A group keeps to the budget, or it holds a single text (which may exceed it). */
  predicate WithinBudget(g: seq<string>, b: int) {
    |g| == 1 || SumLen(g) <= b
  }

  predicate AllWithinBudget(gs: seq<seq<string>>, b: int) {
    forall k :: 0 <= k < |gs| ==> WithinBudget(gs[k], b)
  }

  lemma {:induction false} FeedAllBudget(xs: seq<string>, n: nat, b: int)
    requires n <= |xs|
    ensures AllWithinBudget(Close(FeedAll(xs, n, b)), b)
  {
    if n > 0 {
      FeedAllBudget(xs, n - 1, b);
      FeedBudget(FeedAll(xs, n - 1, b), xs[n - 1], b);
    }
  }

  /** One step of the packer keeps every closed group within the budget. */
  lemma FeedBudget(p: Packer, x: string, b: int)
    requires AllWithinBudget(Close(p), b)
    ensures AllWithinBudget(Close(Feed(p, x, b)), b)
  {
    assert WithinBudget([x], b);
    if p.cur != [] && SumLen(p.cur) + |x| > b {
      assert Close(Feed(p, x, b)) == Close(p) + [[x]];
      AllWithinBudgetSnoc(Close(p), [x], b);
    } else {
      SumLenSnoc(p.cur, x);
      assert [] + [x] == [x];
      assert WithinBudget(p.cur + [x], b);
      AllWithinBudgetOfDone(p, b);
      assert Close(Feed(p, x, b)) == p.done + [p.cur + [x]];
      AllWithinBudgetSnoc(p.done, p.cur + [x], b);
    }
  }

  lemma AllWithinBudgetSnoc(gs: seq<seq<string>>, g: seq<string>, b: int)
    requires AllWithinBudget(gs, b) && WithinBudget(g, b)
    ensures AllWithinBudget(gs + [g], b)
  {
    assert forall k :: 0 <= k < |gs| ==> (gs + [g])[k] == gs[k];
  }

  lemma AllWithinBudgetOfDone(p: Packer, b: int)
    requires AllWithinBudget(Close(p), b)
    ensures AllWithinBudget(p.done, b)
  {
    assert forall k :: 0 <= k < |p.done| ==> Close(p)[k] == p.done[k];
  }

  /** Greedy packing keeps every part within the budget, except a text too long on its own. */
  lemma PackGroupsBudget(xs: seq<string>, b: int)
    ensures AllWithinBudget(PackGroups(xs, b), b)
  {
    FeedAllBudget(xs, |xs|, b);
  }

  /** Each part was closed only because the next text would have taken it over the budget. */
  predicate Maximal(gs: seq<seq<string>>, b: int)
    requires forall k :: 0 <= k < |gs| ==> gs[k] != []
  {
    forall k :: 0 <= k < |gs| - 1 ==> SumLen(gs[k]) + |gs[k + 1][0]| > b
  }

  /** Feeding one text keeps the parts closed so far maximal. */
  lemma FeedMaximal(p: Packer, x: string, b: int)
    requires forall k :: 0 <= k < |p.done| ==> p.done[k] != []
    requires p.cur == [] ==> p.done == []
    requires Maximal(Close(p), b)
    ensures forall k :: 0 <= k < |Close(Feed(p, x, b))| ==> Close(Feed(p, x, b))[k] != []
    ensures Maximal(Close(Feed(p, x, b)), b)
  {
    var c := Close(p);
    var d := Close(Feed(p, x, b));
    if p.cur == [] {
      assert [] + [x] == [x];
      assert d == [[x]];
    } else if SumLen(p.cur) + |x| > b {
      assert d == c + [[x]];
    } else {
      assert d == p.done + [p.cur + [x]];
      forall k | 0 <= k < |d| - 1 ensures SumLen(d[k]) + |d[k + 1][0]| > b {
        assert d[k] == c[k];
        assert d[k + 1][0] == c[k + 1][0];
      }
    }
  }

  lemma {:induction false} FeedAllMaximal(xs: seq<string>, n: nat, b: int)
    requires n <= |xs|
    ensures Maximal(Close(FeedAll(xs, n, b)), b)
  {
    if n > 0 {
      FeedAllMaximal(xs, n - 1, b);
      FeedMaximal(FeedAll(xs, n - 1, b), xs[n - 1], b);
    }
  }

  /** Greedy packing closes a part only when the next text does not fit. */
  lemma PackGroupsMaximal(xs: seq<string>, b: int)
    ensures Maximal(PackGroups(xs, b), b)
  {
    FeedAllMaximal(xs, |xs|, b);
  }

  lemma FeedExtends(p: Packer, b: int, xs: seq<string>, n: nat)
    requires 0 < n <= |xs| && Flatten(p.done) + p.cur == xs[..n - 1]
    ensures Flatten(Feed(p, xs[n - 1], b).done) + Feed(p, xs[n - 1], b).cur == xs[..n]
  {
    PlaceExtends(p, p.cur != [] && SumLen(p.cur) + |xs[n - 1]| > b, xs[n - 1], xs, n);
  }

  lemma {:induction false} FeedAllFlatten(xs: seq<string>, n: nat, b: int)
    requires n <= |xs|
    ensures Flatten(FeedAll(xs, n, b).done) + FeedAll(xs, n, b).cur == xs[..n]
  {
    if n == 0 {
      assert xs[..0] == [];
    } else {
      FeedAllFlatten(xs, n - 1, b);
      FeedAllStep(xs, n, b);
    }
  }

  lemma FeedAllStep(xs: seq<string>, n: nat, b: int)
    requires 0 < n <= |xs|
    requires Flatten(FeedAll(xs, n - 1, b).done) + FeedAll(xs, n - 1, b).cur == xs[..n - 1]
    ensures Flatten(FeedAll(xs, n, b).done) + FeedAll(xs, n, b).cur == xs[..n]
  {
    FeedExtends(FeedAll(xs, n - 1, b), b, xs, n);
  }

  lemma FlattenClose(p: Packer)
    ensures Flatten(Close(p)) == Flatten(p.done) + p.cur
  {
    if p.cur != [] {
      assert (p.done + [p.cur])[..|p.done|] == p.done;
    }
  }

  /** Greedy packing keeps every text, in order. */
  lemma PackGroupsFlatten(xs: seq<string>, b: int)
    ensures Flatten(PackGroups(xs, b)) == xs
  {
    FeedAllFlatten(xs, |xs|, b);
    FlattenClose(FeedAll(xs, |xs|, b));
    assert xs[..|xs|] == xs;
  }

  /** One turn of the paragraph loop: a blank line closes the paragraph being built,
      and is itself dropped; any other line joins the paragraph. */
  function ParaStep(p: Packer, line: string): Packer {
    if BlankLine(line) then Packer(Close(p), []) else Packer(p.done, p.cur + [line])
  }

  /** The paragraph loop after the first `n` lines. */
  function ParaFold(lines: seq<string>, n: nat): (p: Packer)
    requires n <= |lines|
    ensures forall k :: 0 <= k < |p.done| ==> p.done[k] != []
  {
    if n == 0 then Empty else ParaStep(ParaFold(lines, n - 1), lines[n - 1])
  }

  /** The non-blank lines among the first `n`. */
  function NonBlank(lines: seq<string>, n: nat): (r: seq<string>)
    requires n <= |lines|
    ensures forall k :: 0 <= k < |r| ==> !BlankLine(r[k])
  {
    if n == 0 then []
    else if BlankLine(lines[n - 1]) then NonBlank(lines, n - 1)
    else NonBlank(lines, n - 1) + [lines[n - 1]]
  }

  lemma {:induction false} ParaFoldFlatten(lines: seq<string>, n: nat)
    requires n <= |lines|
    ensures Flatten(ParaFold(lines, n).done) + ParaFold(lines, n).cur == NonBlank(lines, n)
  {
    if n > 0 {
      var p := ParaFold(lines, n - 1);
      var line := lines[n - 1];
      ParaFoldFlatten(lines, n - 1);
      if BlankLine(line) {
        assert ParaFold(lines, n) == Packer(Close(p), []);
        assert NonBlank(lines, n) == NonBlank(lines, n - 1);
        FlattenClose(p);
        assert Flatten(Close(p)) + [] == Flatten(Close(p));
      } else {
        assert ParaFold(lines, n) == Packer(p.done, p.cur + [line]);
        assert NonBlank(lines, n) == NonBlank(lines, n - 1) + [line];
        assert Flatten(p.done) + (p.cur + [line]) == (Flatten(p.done) + p.cur) + [line];
      }
    }
  }

  /** The paragraphs of an oversized section: its maximal runs of non-blank lines,
      each run joined with `"\n"`. */
  function Paragraphs(section: string): seq<string> {
    var lines := Split(section, "\n");
    JoinEach(Close(ParaFold(lines, |lines|)), "\n")
  }

  /** The lines of the paragraphs are the section's non-blank lines, in order. */
  lemma ParagraphLines(section: string)
    ensures var lines := Split(section, "\n");
            Join(Paragraphs(section), "\n") == Join(NonBlank(lines, |lines|), "\n")
  {
    var lines := Split(section, "\n");
    var p := ParaFold(lines, |lines|);
    ParaFoldFlatten(lines, |lines|);
    FlattenClose(p);
    JoinJoinEach(Close(p), "\n");
  }

  /** A section is oversized when its cost exceeds the budget. */
  predicate Oversized(section: string, b: int) {
    |section| > b
  }

  /** One turn of the section loop: an oversized section closes the part being filled
      and contributes the greedy packing of its paragraphs; any other section is fed
      to the greedy packer. */
  function SectionStep(p: Packer, section: string, b: int): Packer {
    if Oversized(section, b) then Packer(Close(p) + PackGroups(Paragraphs(section), b), [])
    else Feed(p, section, b)
  }

  /** The section loop after the first `n` sections. */
  function SectionFold(sections: seq<string>, n: nat, b: int): (p: Packer)
    requires n <= |sections|
    ensures forall k :: 0 <= k < |p.done| ==> p.done[k] != []
  {
    if n == 0 then Empty else SectionStep(SectionFold(sections, n - 1, b), sections[n - 1], b)
  }

  /** The groups of texts the parts are made of; each part joins its group with `"\n\n"`. */
  function PartGroups(sections: seq<string>, b: int): (g: seq<seq<string>>)
    ensures forall k :: 0 <= k < |g| ==> g[k] != []
  {
    Close(SectionFold(sections, |sections|, b))
  }

  /** `split_content(content, max_tokens)`. */
  function SplitContentSpec(content: string, maxTokens: int): seq<string> {
    if |content| <= 4 * maxTokens then [content]
    else JoinEach(PartGroups(SectionsOf(Split(content, "\n")), 4 * maxTokens), "\n\n")
  }

  lemma {:induction false} SectionFoldBudget(sections: seq<string>, n: nat, b: int)
    requires n <= |sections|
    ensures AllWithinBudget(Close(SectionFold(sections, n, b)), b)
  {
    if n > 0 {
      SectionFoldBudget(sections, n - 1, b);
      SectionStepBudget(SectionFold(sections, n - 1, b), sections[n - 1], b);
    }
  }

  lemma SectionStepBudget(p: Packer, x: string, b: int)
    requires AllWithinBudget(Close(p), b)
    ensures AllWithinBudget(Close(SectionStep(p, x, b)), b)
  {
    if Oversized(x, b) {
      var gs := PackGroups(Paragraphs(x), b);
      PackGroupsBudget(Paragraphs(x), b);
      assert Close(SectionStep(p, x, b)) == Close(p) + gs;
      AllWithinBudgetConcat(Close(p), gs, b);
    } else {
      FeedBudget(p, x, b);
    }
  }

  lemma AllWithinBudgetConcat(gs: seq<seq<string>>, hs: seq<seq<string>>, b: int)
    requires AllWithinBudget(gs, b) && AllWithinBudget(hs, b)
    ensures AllWithinBudget(gs + hs, b)
  {
    assert forall k :: 0 <= k < |gs + hs| ==> (gs + hs)[k] == if k < |gs| then gs[k] else hs[k - |gs|];
  }

  /** Every part keeps to the budget, except a single section or paragraph too long on its own. */
  lemma PartsWithinBudget(sections: seq<string>, b: int)
    ensures AllWithinBudget(PartGroups(sections, b), b)
  {
    SectionFoldBudget(sections, |sections|, b);
  }

  /** What the section loop keeps of the first `n` sections: a fitting section as it is,
      an oversized one as its paragraphs. */
  function Pieces(sections: seq<string>, n: nat, b: int): seq<string>
    requires n <= |sections|
  {
    if n == 0 then []
    else if Oversized(sections[n - 1], b) then Pieces(sections, n - 1, b) + Paragraphs(sections[n - 1])
    else Pieces(sections, n - 1, b) + [sections[n - 1]]
  }

  lemma {:induction false} SectionFoldFlatten(sections: seq<string>, n: nat, b: int)
    requires n <= |sections|
    ensures Flatten(SectionFold(sections, n, b).done) + SectionFold(sections, n, b).cur == Pieces(sections, n, b)
  {
    if n > 0 {
      var p := SectionFold(sections, n - 1, b);
      var x := sections[n - 1];
      SectionFoldFlatten(sections, n - 1, b);
      FlattenClose(p);
      if Oversized(x, b) {
        FlattenConcat(Close(p), PackGroups(Paragraphs(x), b));
        PackGroupsFlatten(Paragraphs(x), b);
      } else {
        PlaceFlatten(p, p.cur != [] && SumLen(p.cur) + |x| > b, x);
      }
    }
  }

  /** The parts hold the pieces of the sections, each once and in order. */
  lemma PartsFlatten(sections: seq<string>, b: int)
    ensures Flatten(PartGroups(sections, b)) == Pieces(sections, |sections|, b)
  {
    SectionFoldFlatten(sections, |sections|, b);
    FlattenClose(SectionFold(sections, |sections|, b));
  }

  lemma {:induction false} FittingSectionsFeed(sections: seq<string>, n: nat, b: int)
    requires n <= |sections|
    requires forall k :: 0 <= k < |sections| ==> !Oversized(sections[k], b)
    ensures SectionFold(sections, n, b) == FeedAll(sections, n, b)
  {
    if n > 0 { FittingSectionsFeed(sections, n - 1, b); }
  }

  /** When no section is oversized, the section loop is plain greedy packing of the
      sections, and joining the parts gives the sections joined with `"\n\n"`. */
  lemma FittingSections(sections: seq<string>, b: int)
    requires forall k :: 0 <= k < |sections| ==> !Oversized(sections[k], b)
    ensures PartGroups(sections, b) == PackGroups(sections, b)
    ensures Join(JoinEach(PartGroups(sections, b), "\n\n"), "\n\n") == Join(sections, "\n\n")
  {
    FittingSectionsFeed(sections, |sections|, b);
    PackGroupsFlatten(sections, b);
    JoinJoinEach(PackGroups(sections, b), "\n\n");
  }

  // ================================================================ the loops of split_content

  /** One turn of the paragraph loop. */
  method ParagraphTurn(paragraphs: seq<string>, ghost done: seq<seq<string>>, current: seq<string>, line: string)
    returns (paragraphs': seq<string>, ghost done': seq<seq<string>>, current': seq<string>)
    requires paragraphs == JoinEach(done, "\n")
    ensures Packer(done', current') == ParaStep(Packer(done, current), line)
    ensures paragraphs' == JoinEach(done', "\n")
  {
    paragraphs', done', current' := paragraphs, done, current;
    BlankLineIffStripEmpty(line);
    if Strip(line) == "" {
      if current != [] {
        JoinEachSnoc(done, current, "\n");
        paragraphs' := paragraphs + [Join(current, "\n")];
        done' := done + [current];
        current' := [];
      }
    } else {
      current' := current + [line];
    }
  }

  /** The paragraph loop of an oversized section. */
  method SplitParagraphs(section: string) returns (paragraphs: seq<string>)
    ensures paragraphs == Paragraphs(section)
  {
    var lines := Split(section, "\n");
    ghost var done: seq<seq<string>> := [];
    paragraphs := [];
    var current: seq<string> := [];
    var i := 0;
    while i < |lines|
      invariant 0 <= i <= |lines|
      invariant Packer(done, current) == ParaFold(lines, i)
      invariant paragraphs == JoinEach(done, "\n")
    {
      paragraphs, done, current := ParagraphTurn(paragraphs, done, current, lines[i]);
      i := i + 1;
    }
    paragraphs := CloseGroups(paragraphs, done, current, "\n");
  }

  /** One turn of a greedy packing loop: the part being filled is closed when it holds
      something and `x` would take it over the budget, then `x` joins the part. */
  method FeedPart(parts: seq<string>, ghost done: seq<seq<string>>, current: seq<string>,
                  currentLen: nat, x: string, b: int)
    returns (parts': seq<string>, ghost done': seq<seq<string>>, current': seq<string>, currentLen': nat)
    requires parts == JoinEach(done, "\n\n") && currentLen == SumLen(current)
    ensures Packer(done', current') == Feed(Packer(done, current), x, b)
    ensures parts' == JoinEach(done', "\n\n") && currentLen' == SumLen(current')
  {
    if currentLen + |x| > b && current != [] {
      JoinEachSnoc(done, current, "\n\n");
      parts', done' := parts + [Join(current, "\n\n")], done + [current];
      SumLenSnoc([], x);
      assert [] + [x] == [x];
      current', currentLen' := [x], |x|;
    } else {
      SumLenSnoc(current, x);
      parts', done' := parts, done;
      current', currentLen' := current + [x], currentLen + |x|;
    }
  }

  /** The greedy loop that packs the paragraphs of an oversized section into parts. */
  method PackParagraphs(paragraphs: seq<string>, b: int) returns (subParts: seq<string>)
    ensures subParts == JoinEach(PackGroups(paragraphs, b), "\n\n")
  {
    ghost var done: seq<seq<string>> := [];
    subParts := [];
    var current: seq<string> := [];
    var currentLen := 0;
    var i := 0;
    while i < |paragraphs|
      invariant 0 <= i <= |paragraphs|
      invariant Packer(done, current) == FeedAll(paragraphs, i, b)
      invariant currentLen == SumLen(current)
      invariant subParts == JoinEach(done, "\n\n")
    {
      subParts, done, current, currentLen := FeedPart(subParts, done, current, currentLen, paragraphs[i], b);
      i := i + 1;
    }
    subParts := CloseGroups(subParts, done, current, "\n\n");
  }

  /** An oversized section in the section loop: the part being filled is closed and
      the packed paragraphs of the section follow it. */
  method SplitOversized(parts: seq<string>, ghost done: seq<seq<string>>, current: seq<string>,
                        section: string, b: int)
    returns (parts': seq<string>, ghost done': seq<seq<string>>)
    requires parts == JoinEach(done, "\n\n")
    ensures done' == Close(Packer(done, current)) + PackGroups(Paragraphs(section), b)
    ensures parts' == JoinEach(done', "\n\n")
  {
    parts', done' := parts, done;
    if current != [] {
      JoinEachSnoc(done, current, "\n\n");
      parts' := parts' + [Join(current, "\n\n")];
      done' := done' + [current];
    }
    var paragraphs := SplitParagraphs(section);
    var subParts := PackParagraphs(paragraphs, b);
    JoinEachConcat(done', PackGroups(paragraphs, b), "\n\n");
    parts' := parts' + subParts;
    done' := done' + PackGroups(paragraphs, b);
  }

  /** One turn of the section loop. */
  method SectionTurn(parts: seq<string>, ghost done: seq<seq<string>>, current: seq<string>,
                     currentLen: nat, section: string, b: int)
    returns (parts': seq<string>, ghost done': seq<seq<string>>, current': seq<string>, currentLen': nat)
    requires parts == JoinEach(done, "\n\n") && currentLen == SumLen(current)
    ensures Packer(done', current') == SectionStep(Packer(done, current), section, b)
    ensures parts' == JoinEach(done', "\n\n") && currentLen' == SumLen(current')
  {
    if |section| > b {
      parts', done' := SplitOversized(parts, done, current, section, b);
      current', currentLen' := [], 0;
    } else {
      parts', done', current', currentLen' := FeedPart(parts, done, current, currentLen, section, b);
    }
  }

  /** The section loop: fitting sections are packed greedily, oversized ones are split
      into paragraphs that are packed on their own. */
  method PackSections(sections: seq<string>, b: int) returns (parts: seq<string>)
    ensures parts == JoinEach(PartGroups(sections, b), "\n\n")
  {
    ghost var done: seq<seq<string>> := [];
    parts := [];
    var current: seq<string> := [];
    var currentLen := 0;
    var i := 0;
    while i < |sections|
      invariant 0 <= i <= |sections|
      invariant Packer(done, current) == SectionFold(sections, i, b)
      invariant currentLen == SumLen(current)
      invariant parts == JoinEach(done, "\n\n")
    {
      parts, done, current, currentLen := SectionTurn(parts, done, current, currentLen, sections[i], b);
      i := i + 1;
    }
    parts := CloseGroups(parts, done, current, "\n\n");
  }

  /** `split_content(content, max_tokens)`: a short document is one part; otherwise
      the document is cut into sections and the sections are packed into parts. */
  method SplitContent(content: string, maxTokens: int) returns (parts: seq<string>)
    ensures parts == SplitContentSpec(content, maxTokens)
    ensures |content| <= 4 * maxTokens ==> parts == [content]
  {
    if |content| <= 4 * maxTokens {
      return [content];
    }
    var lines := Split(content, "\n");
    var sections := ScanSections(lines, Kinds(lines));
    parts := PackSections(sections, 4 * maxTokens);
  }
}
