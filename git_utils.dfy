/** `get_changed_files_in_dir`: the files that `git status --porcelain=v1` reports inside a
    sub-directory of the repository, relative to that sub-directory, sorted and without
    duplicates. Running git and looking at the file system are outside the model: the caller
    passes whether the directory exists, git's standard output (`None` when git failed or
    could not be started) and the name of the repository's root folder. */
module GitUtils {
  import opened Wrappers
  import opened Strings

  /** What one porcelain line contributes: nothing, a path, or an exception that ends the scan. */
  datatype LineResult = Skipped | Kept(path: string) | Crashed

  /** A non-empty run of non-whitespace characters. */
  predicate Token(s: string) {
    s != [] && forall i :: 0 <= i < |s| ==> !IsSpace(s[i])
  }

  // ---------------------------------------------------------------- POSIX paths

  predicate SlashFree(s: string) {
    forall i :: 0 <= i < |s| ==> s[i] != '/'
  }

  /** A component that `pathlib` keeps: neither empty (left by a doubled or a trailing `/`)
      nor `.`. */
  predicate Significant(c: string) {
    c != "" && c != "."
  }

  /** The significant components, in order. */
  function Components(parts: seq<string>): (r: seq<string>)
    ensures forall k :: 0 <= k < |r| ==> Significant(r[k]) && r[k] in parts
  {
    if parts == [] then []
    else if Significant(parts[0]) then [parts[0]] + Components(parts[1..])
    else Components(parts[1..])
  }

  /** The root that `pathlib` keeps: exactly two leading slashes stay two, one or three and
      more become one. */
  function Root(p: string): string {
    if StartsWith(p, "//") && !StartsWith(p, "///") then "//"
    else if StartsWith(p, "/") then "/"
    else ""
  }

  /** `Path(p).as_posix()` on a POSIX system: the root, then the significant components
      joined by `/`; `.` when both are empty. */
  function PosixPath(p: string): (r: string)
    ensures r != []
  {
    var body := Join(Components(Split(p, "/")), "/");
    if Root(p) == "" && body == "" then "." else Root(p) + body
  }

  /** The pieces of a split at `/` hold no `/`. */
  lemma {:induction false} SplitSlashFree(s: string)
    ensures forall k :: 0 <= k < |Split(s, "/")| ==> SlashFree(Split(s, "/")[k])
    decreases |s|
  {
    if s != [] {
      SplitSlashFree(s[1..]);
      if !StartsWith(s, "/") {
        assert s[..1] == [s[0]];
      }
    }
  }

  /** Splitting slash-free parts joined by `/` gives the parts back. */
  lemma {:induction false} SplitJoin(parts: seq<string>)
    requires parts != [] && forall k :: 0 <= k < |parts| ==> SlashFree(parts[k])
    ensures Split(Join(parts, "/"), "/") == parts
    decreases |parts|
  {
    if |parts| == 1 {
      SplitWithout(parts[0], "/");
    } else {
      SplitJoin(parts[1..]);
      SplitAfterPart(parts[0], "/", Join(parts[1..], "/"));
      assert parts == [parts[0]] + parts[1..];
    }
  }

  lemma {:induction false} ComponentsOfSignificant(parts: seq<string>)
    requires forall k :: 0 <= k < |parts| ==> Significant(parts[k])
    ensures Components(parts) == parts
    decreases |parts|
  {
    if parts != [] {
      ComponentsOfSignificant(parts[1..]);
      assert parts == [parts[0]] + parts[1..];
    }
  }

  lemma ComponentsCons(c: string, rest: seq<string>)
    ensures Components([c] + rest) == if Significant(c) then [c] + Components(rest) else Components(rest)
  {
    assert ([c] + rest)[1..] == rest;
  }

  /** Joined significant slash-free components start with the first of them, so not with `/`. */
  lemma JoinedHead(cs: seq<string>)
    requires cs != [] && Significant(cs[0]) && SlashFree(cs[0])
    ensures Join(cs, "/") != [] && Join(cs, "/")[0] == cs[0][0] && Join(cs, "/")[0] != '/'
  {
  }

  /** The components of a normalised body are its own components. */
  lemma BodyComponents(p: string)
    ensures var cs := Components(Split(p, "/"));
            Components(Split(Join(cs, "/"), "/")) == cs
            && (cs != [] ==> Join(cs, "/") != [] && Join(cs, "/")[0] != '/')
            && (cs == [] ==> Join(cs, "/") == [])
  {
    var cs := Components(Split(p, "/"));
    SplitSlashFree(p);
    assert forall k :: 0 <= k < |cs| ==> SlashFree(cs[k]);
    if cs == [] {
      assert Split("", "/") == [""];
      ComponentsCons("", []);
    } else {
      SplitJoin(cs);
      ComponentsOfSignificant(cs);
      JoinedHead(cs);
    }
  }

  /** A root in front of a body splits into one empty piece per slash of the root, then the
      pieces of the body. */
  lemma RootSplit(root: string, body: string)
    requires root == "/" || root == "//"
    ensures Components(Split(root + body, "/")) == Components(Split(body, "/"))
  {
    SplitAfterPart("", "/", body);
    assert "" + "/" + body == "/" + body;
    ComponentsCons("", Split(body, "/"));
    if root == "//" {
      SplitAfterPart("", "/", "/" + body);
      assert "" + "/" + ("/" + body) == root + body;
      ComponentsCons("", Split("/" + body, "/"));
    }
  }

  /** A root in front of a body that does not start with `/` is read back as that root. */
  lemma RootOf(root: string, body: string)
    requires root == "/" || root == "//"
    requires body == [] || body[0] != '/'
    ensures Root(root + body) == root
  {
    var q := root + body;
    if root == "//" {
      assert q[..2] == "//";
      assert |q| >= 3 ==> q[2] == body[0];
    } else {
      assert q[..1] == "/";
      assert |q| >= 2 ==> q[1] == body[0];
    }
  }

  lemma DotFixed()
    ensures PosixPath(".") == "."
  {
    SplitWithout(".", "/");
    ComponentsCons(".", []);
  }

  /** A path made of a root and joined components, read back from those, is left as it is. */
  lemma PosixPathOfParts(q: string, root: string, cs: seq<string>)
    requires Root(q) == root && Components(Split(q, "/")) == cs
    requires root != "" || Join(cs, "/") != ""
    requires q == root + Join(cs, "/")
    ensures PosixPath(q) == q
  {
  }

  lemma PosixPathShape(p: string)
    ensures var body := Join(Components(Split(p, "/")), "/");
            PosixPath(p) == if Root(p) == "" && body == "" then "." else Root(p) + body
    ensures Root(p) == "" || Root(p) == "/" || Root(p) == "//"
  {
  }

  /** A body that does not start with `/` has no root. */
  lemma NoRoot(body: string)
    requires body != [] && body[0] != '/'
    ensures Root(body) == ""
  {
    assert body[..1][0] == body[0];
  }

  /** Normalising a normalised path changes nothing. */
  lemma PosixPathIdempotent(p: string)
    ensures PosixPath(PosixPath(p)) == PosixPath(p)
  {
    hide *;
    var cs := Components(Split(p, "/"));
    var body := Join(cs, "/");
    var root := Root(p);
    var q := PosixPath(p);
    PosixPathShape(p);
    BodyComponents(p);
    if root == "" && body == "" {
      DotFixed();
    } else if root == "" {
      assert q == body;
      NoRoot(body);
      PosixPathOfParts(q, "", cs);
    } else {
      RootSplit(root, body);
      RootOf(root, body);
      PosixPathOfParts(q, root, cs);
    }
  }

  lemma DoubledSlashSplit(a: string, b: string)
    requires SlashFree(a) && SlashFree(b)
    ensures Split(a + "//" + b, "/") == [a, "", b]
  {
    SplitAfterPart(a, "/", "/" + b);
    SplitAfterPart("", "/", b);
    SplitWithout(b, "/");
    assert a + "//" + b == a + "/" + ("/" + b);
    assert "" + "/" + b == "/" + b;
  }

  /** A doubled slash between two components is read as one. */
  lemma DoubledSlash(a: string, b: string)
    requires Significant(a) && SlashFree(a) && Significant(b) && SlashFree(b)
    ensures PosixPath(a + "//" + b) == a + "/" + b
  {
    DoubledSlashSplit(a, b);
    hide Split;
    ComponentsCons(b, []);
    ComponentsCons("", [b]);
    ComponentsCons(a, ["", b]);
    assert [a, "", b] == [a] + ["", b] && ["", b] == [""] + [b];
    assert Components([a, "", b]) == [a, b];
    var q := a + "//" + b;
    assert Root(q) == "" by {
      assert q[0] == a[0];
      assert |q| >= 1 ==> q[..1][0] == q[0];
      assert |q| >= 2 ==> q[..2][0] == q[0];
    }
    assert [a, b][1..] == [b];
    assert Join([a, b], "/") == a + "/" + b;
  }

  /** A leading `./` is dropped. */
  lemma LeadingDot(a: string)
    requires Significant(a) && SlashFree(a)
    ensures PosixPath("./" + a) == a
  {
    SplitAfterPart(".", "/", a);
    SplitWithout(a, "/");
    assert "./" + a == "." + "/" + a;
    assert Split("./" + a, "/") == [".", a];
    ComponentsCons(a, []);
    ComponentsCons(".", [a]);
    assert [".", a] == ["."] + [a];
    var q := "./" + a;
    assert Root(q) == "" by {
      assert q[..1][0] == '.';
      assert q[..2][0] == '.';
    }
  }

  // ---------------------------------------------------------------- the sub-directory

  /** The sub-directory in POSIX form with every leading and trailing `/` removed. */
  function CleanSubdir(target: string): (r: string)
    ensures r == [] || (r[0] != '/' && r[|r| - 1] != '/')
  {
    StripSet(PosixPath(target), {'/'})
  }

  /** A relative sub-directory comes out normalised: `docs//ru` reads as `docs/ru`. */
  lemma CleanSubdirNormalises(a: string, b: string)
    requires Significant(a) && SlashFree(a) && Significant(b) && SlashFree(b)
    ensures CleanSubdir(a + "//" + b) == a + "/" + b
    ensures CleanSubdir("./" + a) == a
  {
    DoubledSlash(a, b);
    LeadingDot(a);
    assert (a + "/" + b)[0] == a[0] && (a + "/" + b)[|a + "/" + b| - 1] == b[|b| - 1];
  }

  // ---------------------------------------------------------------- one path

  /** The path with a leading `<repo_root_name>/` removed. */
  function WithoutRepoPrefix(p: string, repoName: string): (r: string)
    ensures StartsWith(p, repoName + "/") ==> repoName + "/" + r == p
    ensures !StartsWith(p, repoName + "/") ==> r == p
  {
    if StartsWith(p, repoName + "/") then
      assert p == p[..|repoName| + 1] + p[|repoName| + 1..];
      p[|repoName| + 1..]
    else p
  }

  /** The path of `c` relative to `subdir`, for a `c` inside `subdir`: the rest after `subdir/`,
      or `.` when nothing follows it. */
  function RelativeTo(c: string, subdir: string): (r: string)
    requires StartsWith(c, subdir + "/")
    ensures r != []
    ensures c == subdir + "/" ==> r == "."
    ensures c != subdir + "/" ==> c == subdir + "/" + r
  {
    var rest := c[|subdir| + 1..];
    assert c == c[..|subdir| + 1] + rest;
    if rest == "" then "." else rest
  }

  /** The path of a line once taken from it: quotes off, POSIX form, repository prefix off,
      and kept relative to `subdir`, again in POSIX form, when it lies inside it. Taking a
      path never raises. */
  function Keep(p: string, subdir: string, repoName: string): (r: LineResult)
    ensures !r.Crashed?
    ensures r.Kept? ==> PosixPath(r.path) == r.path
  {
    var c := WithoutRepoPrefix(PosixPath(StripSet(p, {'"'})), repoName);
    if StartsWith(c, subdir + "/") then
      PosixPathIdempotent(RelativeTo(c, subdir));
      Kept(PosixPath(RelativeTo(c, subdir)))
    else Skipped
  }

  // ---------------------------------------------------------------- one line

  /** The loop body as written: the line is split at whitespace into at most three fields, the
      path is the second field, and a rename or copy whose second field contains `->` is split
      at ` -> `. */
  function PathLineAsWritten(line: string, subdir: string, repoName: string): (r: LineResult)
    ensures r.Crashed? <==> !BlankLine(line) && |Words(line)| < 2
    ensures BlankLine(line) ==> r.Skipped?
  {
    if BlankLine(line) then Skipped
    else
      var parts := Words(line);
      if |parts| < 2 then Crashed
      else if (parts[0] == "R" || parts[0] == "C") && Contains(parts[1], "->") then
        var paths := Split(parts[1], " -> ");
        if |paths| == 2 then Keep(paths[1], subdir, repoName) else Skipped
      else Keep(parts[1], subdir, repoName)
  }

  /** The text of a line after its first word, leading whitespace removed: the
      second field of a split at whitespace into at most two fields, when there is one. */
  function AfterStatus(line: string): string {
    var l := LStrip(line);
    LStrip(l[|TakeWord(l)|..])
  }

  /** The loop body as intended: the path is everything after the status, so that a rename
      `R  old -> new` yields `new` and a quoted path with spaces stays whole. */
  function PathLine(line: string, subdir: string, repoName: string): (r: LineResult)
    ensures r.Crashed? <==> !BlankLine(line) && AfterStatus(line) == ""
    ensures BlankLine(line) ==> r.Skipped?
  {
    if BlankLine(line) then Skipped
    else
      var l := LStrip(line);
      var status := TakeWord(l);
      var rest := AfterStatus(line);
      if rest == "" then Crashed
      else if (status == "R" || status == "C") && Contains(rest, "->") then
        var paths := Split(rest, " -> ");
        if |paths| == 2 then Keep(paths[1], subdir, repoName) else Skipped
      else Keep(rest, subdir, repoName)
  }

  // ---------------------------------------------------------------- the finding

  lemma {:induction false} TakeWordBefore(w: string, rest: string)
    requires Token(w) && rest != [] && IsSpace(rest[0])
    ensures TakeWord(w + rest) == w
    decreases |w|
  {
    assert (w + rest)[0] == w[0];
    if |w| > 1 {
      assert (w + rest)[1..] == w[1..] + rest;
      TakeWordBefore(w[1..], rest);
      assert w == [w[0]] + w[1..];
    } else {
      assert (w + rest)[1..] == rest;
    }
  }

  lemma WordsAfter(w: string, rest: string)
    requires Token(w) && rest != [] && IsSpace(rest[0])
    ensures Words(w + rest) == [w] + Words(rest[1..])
  {
    TakeWordBefore(w, rest);
    assert (w + rest)[|w|..] == rest;
  }

  /** A string without the separator's first character is not split. */
  lemma {:induction false} SplitWithout(s: string, sep: string)
    requires sep != [] && forall i :: 0 <= i < |s| ==> s[i] != sep[0]
    ensures Split(s, sep) == [s]
    decreases |s|
  {
    if s != [] {
      assert !StartsWith(s, sep) by {
        if |sep| <= |s| {
          assert s[..|sep|][0] == s[0];
        }
      }
      SplitWithout(s[1..], sep);
      assert s == [s[0]] + s[1..];
    }
  }

  /** Splitting `a + sep + b` where `a` lacks the separator's first character. */
  lemma {:induction false} SplitAfterPart(a: string, sep: string, b: string)
    requires sep != [] && forall i :: 0 <= i < |a| ==> a[i] != sep[0]
    ensures Split(a + sep + b, sep) == [a] + Split(b, sep)
    decreases |a|
  {
    var s := a + sep + b;
    if a == [] {
      assert s == sep + b;
      assert s[..|sep|] == sep;
      assert s[|sep|..] == b;
    } else {
      assert s[0] == a[0];
      assert !StartsWith(s, sep) by { assert s[..|sep|][0] == a[0]; }
      assert s[1..] == a[1..] + sep + b;
      SplitAfterPart(a[1..], sep, b);
      assert a == [a[0]] + a[1..];
    }
  }

  /** The shape of a rename line: `R`, two spaces, the old path, ` -> `, the new path. */
  function RenameLine(src: string, dst: string): string {
    "R  " + src + " -> " + dst
  }

  lemma RenameLineStart(src: string, dst: string)
    ensures RenameLine(src, dst) == "R" + (" " + (" " + (src + (" -> " + dst))))
    ensures !BlankLine(RenameLine(src, dst))
  {
    var line := RenameLine(src, dst);
    assert line[0] == 'R';
    BlankLineIsBlank(line);
  }

  lemma WordsSkipSpace(x: string)
    ensures Words(" " + x) == Words(x)
  {
    assert (" " + x)[1..] == x;
  }

  lemma RenameWords(src: string, dst: string)
    requires Token(src) && Token(dst)
    ensures var w := Words(RenameLine(src, dst)); |w| >= 2 && w[0] == "R" && w[1] == src
  {
    RenameLineStart(src, dst);
    var arrow := " -> " + dst;
    var rest := src + arrow;
    var tail := " " + rest;
    WordsAfter("R", " " + tail);
    assert (" " + tail)[1..] == tail;
    WordsSkipSpace(rest);
    WordsAfter(src, arrow);
    calc {
      Words(RenameLine(src, dst));
      Words("R" + (" " + tail));
      ["R"] + Words(tail);
      ["R"] + Words(rest);
      ["R"] + ([src] + Words(arrow[1..]));
    }
  }

  lemma AsWrittenFromWords(line: string, subdir: string, repoName: string)
    requires !BlankLine(line)
    requires var w := Words(line); |w| >= 2 && w[0] == "R" && !Contains(w[1], "->")
    ensures PathLineAsWritten(line, subdir, repoName) == Keep(Words(line)[1], subdir, repoName)
  {
  }

  /** As written, `R  old -> new` yields the old path: `parts[1]` is `old`. */
  lemma RenameYieldsSource(src: string, dst: string, subdir: string, repoName: string)
    requires Token(src) && Token(dst) && !Contains(src, "->")
    ensures PathLineAsWritten(RenameLine(src, dst), subdir, repoName) == Keep(src, subdir, repoName)
  {
    RenameLineStart(src, dst);
    RenameWords(src, dst);
    AsWrittenFromWords(RenameLine(src, dst), subdir, repoName);
  }

  /** Nor can the `' -> '` split ever succeed on `parts[1]`: a token holds no space, so the
      branch skips every line it is taken for. */
  lemma ArrowSplitNeverTwo(token: string)
    requires Token(token)
    ensures |Split(token, " -> ")| == 1
  {
    SplitWithout(token, " -> ");
  }

  /** The status word and what follows it, for a line `w + gap + rest`. */
  lemma StatusAndRest(w: string, gap: string, rest: string)
    requires Token(w) && gap != [] && IsBlank(gap)
    requires rest != [] && !IsSpace(rest[0])
    ensures TakeWord(LStrip(w + (gap + rest))) == w
    ensures AfterStatus(w + (gap + rest)) == rest
  {
    var line := w + (gap + rest);
    StripKeepsFirst(line);
    TakeWordBefore(w, gap + rest);
    assert line[|w|..] == gap + rest;
    LStripBlankPrefix(gap, rest);
    StripKeepsFirst(rest);
  }

  lemma RenameRest(src: string, dst: string)
    requires Token(src) && Token(dst)
    ensures TakeWord(LStrip(RenameLine(src, dst))) == "R"
    ensures AfterStatus(RenameLine(src, dst)) == src + (" -> " + dst)
  {
    RenameLineStart(src, dst);
    assert RenameLine(src, dst) == "R" + ("  " + (src + (" -> " + dst)));
    StatusAndRest("R", "  ", src + (" -> " + dst));
  }

  lemma RenameSplit(src: string, dst: string)
    requires Token(src) && Token(dst)
    ensures Contains(src + (" -> " + dst), "->")
    ensures Split(src + (" -> " + dst), " -> ") == [src, dst]
  {
    var rest := src + (" -> " + dst);
    assert rest == (src + " ") + "->" + (" " + dst);
    ContainsSelf(src + " ", "->", " " + dst);
    assert rest == src + " -> " + dst;
    SplitAfterPart(src, " -> ", dst);
    SplitWithout(dst, " -> ");
  }

  lemma IntendedFromParts(line: string, subdir: string, repoName: string, src: string, dst: string)
    requires !BlankLine(line) && TakeWord(LStrip(line)) == "R"
    requires AfterStatus(line) != "" && Contains(AfterStatus(line), "->")
    requires Split(AfterStatus(line), " -> ") == [src, dst]
    ensures PathLine(line, subdir, repoName) == Keep(dst, subdir, repoName)
  {
  }

  /** As intended, `R  old -> new` yields the new path. */
  lemma RenameYieldsDestination(src: string, dst: string, subdir: string, repoName: string)
    requires Token(src) && Token(dst)
    ensures PathLine(RenameLine(src, dst), subdir, repoName) == Keep(dst, subdir, repoName)
  {
    RenameLineStart(src, dst);
    RenameRest(src, dst);
    RenameSplit(src, dst);
    IntendedFromParts(RenameLine(src, dst), subdir, repoName, src, dst);
  }

  /** The shape of an untracked line whose quoted path holds one space: `?? "x y"`. */
  function UntrackedLine(x: string, y: string): string {
    "?? " + x + " " + y
  }

  lemma UntrackedStatus(x: string, y: string)
    ensures Token("??") && IsSpace(' ')
    ensures UntrackedLine(x, y) == "??" + (" " + (x + (" " + y)))
  {
  }

  lemma UntrackedWords(x: string, y: string)
    requires Token(x) && Token(y)
    ensures Words(UntrackedLine(x, y)) == ["??", x] + Words(y)
  {
    hide *;
    var rest := x + (" " + y);
    UntrackedStatus(x, y);
    WordsAfter("??", " " + rest);
    assert (" " + rest)[1..] == rest;
    WordsAfter(x, " " + y);
    assert (" " + y)[1..] == y;
  }

  lemma UntrackedRest(x: string, y: string)
    requires Token(x) && Token(y)
    ensures !BlankLine(UntrackedLine(x, y))
    ensures AfterStatus(UntrackedLine(x, y)) == x + " " + y
  {
    var line := UntrackedLine(x, y);
    assert line == "??" + (" " + (x + " " + y));
    assert line[0] == '?';
    BlankLineIsBlank(line);
    StatusAndRest("??", " ", x + " " + y);
  }

  /** A line whose status is neither `R` nor `C` yields its second field, as written. */
  lemma AsWrittenPlain(line: string, subdir: string, repoName: string)
    requires !BlankLine(line) && |Words(line)| >= 2 && Words(line)[0] != "R" && Words(line)[0] != "C"
    ensures PathLineAsWritten(line, subdir, repoName) == Keep(Words(line)[1], subdir, repoName)
  {
  }

  /** A line whose status is neither `R` nor `C` yields all it holds after the status, as
      intended. */
  lemma IntendedPlain(line: string, subdir: string, repoName: string)
    requires !BlankLine(line) && AfterStatus(line) != ""
    requires TakeWord(LStrip(line)) != "R" && TakeWord(LStrip(line)) != "C"
    ensures PathLine(line, subdir, repoName) == Keep(AfterStatus(line), subdir, repoName)
  {
  }

  lemma UntrackedStatusWord(x: string, y: string)
    requires Token(x) && Token(y)
    ensures TakeWord(LStrip(UntrackedLine(x, y))) == "??"
  {
    var line := UntrackedLine(x, y);
    assert line == "??" + (" " + (x + " " + y));
    StatusAndRest("??", " ", x + " " + y);
  }

  /** As written, a quoted path with a space is cut at the space: `parts[1]` is its first half. */
  lemma SpacedPathTruncated(x: string, y: string, subdir: string, repoName: string)
    requires Token(x) && Token(y)
    ensures PathLineAsWritten(UntrackedLine(x, y), subdir, repoName) == Keep(x, subdir, repoName)
  {
    hide *;
    UntrackedWords(x, y);
    UntrackedRest(x, y);
    var w := Words(UntrackedLine(x, y));
    assert w == ["??", x] + Words(y);
    assert w[0] == "??" && w[1] == x;
    AsWrittenPlain(UntrackedLine(x, y), subdir, repoName);
  }

  /** As intended, the quoted path with a space stays whole. */
  lemma SpacedPathWhole(x: string, y: string, subdir: string, repoName: string)
    requires Token(x) && Token(y)
    ensures PathLine(UntrackedLine(x, y), subdir, repoName) == Keep(x + " " + y, subdir, repoName)
  {
    hide *;
    UntrackedRest(x, y);
    UntrackedStatusWord(x, y);
    IntendedPlain(UntrackedLine(x, y), subdir, repoName);
  }

  // ---------------------------------------------------------------- all lines

  /** What each output line contributes, by the loop body as written. */
  function LineResults(lines: seq<string>, subdir: string, repoName: string): (r: seq<LineResult>)
    ensures |r| == |lines|
    ensures forall i :: 0 <= i < |lines| ==> r[i] == PathLineAsWritten(lines[i], subdir, repoName)
  {
    seq(|lines|, i requires 0 <= i < |lines| => PathLineAsWritten(lines[i], subdir, repoName))
  }

  /** What each output line contributes, by the loop body as intended. */
  function IntendedLineResults(lines: seq<string>, subdir: string, repoName: string): (r: seq<LineResult>)
    ensures |r| == |lines|
    ensures forall i :: 0 <= i < |lines| ==> r[i] == PathLine(lines[i], subdir, repoName)
  {
    seq(|lines|, i requires 0 <= i < |lines| => PathLine(lines[i], subdir, repoName))
  }

  /** The paths collected from the first `n` line results, or `None` when one of them raised. */
  function Collect(results: seq<LineResult>, n: nat): Option<set<string>>
    requires n <= |results|
  {
    if n == 0 then Some({})
    else
      var prev := Collect(results, n - 1);
      match results[n - 1]
      case Crashed => None
      case Skipped => prev
      case Kept(p) => if prev.None? then None else Some(prev.value + {p})
  }

  /** The scan raises exactly when some line raises. */
  lemma {:induction false} CollectRaisesIff(results: seq<LineResult>, n: nat)
    requires n <= |results|
    ensures Collect(results, n).None? <==> exists i :: 0 <= i < n && results[i].Crashed?
  {
    if n > 0 {
      CollectRaisesIff(results, n - 1);
      assert (exists i :: 0 <= i < n && results[i].Crashed?)
             <==> (exists i :: 0 <= i < n - 1 && results[i].Crashed?) || results[n - 1].Crashed?;
    }
  }

  /** Without a raise, the collected paths are exactly the paths the lines keep. */
  lemma {:induction false} CollectedExactly(results: seq<LineResult>, n: nat, y: string)
    requires n <= |results| && Collect(results, n).Some?
    ensures y in Collect(results, n).value <==> exists i :: 0 <= i < n && results[i] == Kept(y)
  {
    if n > 0 {
      CollectedExactly(results, n - 1, y);
      assert (exists i :: 0 <= i < n && results[i] == Kept(y))
             <==> (exists i :: 0 <= i < n - 1 && results[i] == Kept(y)) || results[n - 1] == Kept(y);
    }
  }

  /** The lines `git status` printed: none when the output is blank. */
  function OutputLines(stdout: string): seq<string> {
    SplitLines(Strip(stdout))
  }

  /** Output with nothing to scan: no line, or one empty line. */
  predicate NoChanges(lines: seq<string>) {
    lines == [] || (|lines| == 1 && lines[0] == "")
  }

  /** The result of `get_changed_files_in_dir` as a set, by the loop body as written, or `None`
      for the cases that return `[]` through a missing directory or an exception. */
  function ChangedSet(dirExists: bool, stdout: Option<string>, repoName: string, target: string): (r: Option<set<string>>)
    ensures !dirExists || stdout.None? ==> r.None?
    ensures dirExists && stdout.Some? && NoChanges(OutputLines(stdout.value)) ==> r == Some({})
  {
    if !dirExists || stdout.None? then None
    else
      var lines := OutputLines(stdout.value);
      if NoChanges(lines) then Some({})
      else Collect(LineResults(lines, CleanSubdir(target), repoName), |lines|)
  }

  /** The same set by the loop body as intended. */
  function ChangedSetIntended(dirExists: bool, stdout: Option<string>, repoName: string, target: string): (r: Option<set<string>>)
    ensures !dirExists || stdout.None? ==> r.None?
    ensures dirExists && stdout.Some? && NoChanges(OutputLines(stdout.value)) ==> r == Some({})
  {
    if !dirExists || stdout.None? then None
    else
      var lines := OutputLines(stdout.value);
      if NoChanges(lines) then Some({})
      else Collect(IntendedLineResults(lines, CleanSubdir(target), repoName), |lines|)
  }

  /** With a directory and an output, the scan raises exactly when a line has fewer than two
      fields, and otherwise finds exactly the paths the lines keep. */
  lemma ChangedSetExactly(stdout: string, repoName: string, target: string, y: string)
    requires !NoChanges(OutputLines(stdout))
    ensures var lines := OutputLines(stdout);
            var r := ChangedSet(true, Some(stdout), repoName, target);
            (r.None? <==> exists i :: 0 <= i < |lines| && !BlankLine(lines[i]) && |Words(lines[i])| < 2)
            && (r.Some? ==> (y in r.value <==>
                 exists i :: 0 <= i < |lines| && PathLineAsWritten(lines[i], CleanSubdir(target), repoName) == Kept(y)))
  {
    var lines := OutputLines(stdout);
    var results := LineResults(lines, CleanSubdir(target), repoName);
    CollectRaisesIff(results, |lines|);
    if Collect(results, |lines|).Some? {
      CollectedExactly(results, |lines|, y);
    }
  }

  /** The same for the intended loop body: it raises only on a line with a status and
      nothing after it. */
  lemma ChangedSetIntendedExactly(stdout: string, repoName: string, target: string, y: string)
    requires !NoChanges(OutputLines(stdout))
    ensures var lines := OutputLines(stdout);
            var r := ChangedSetIntended(true, Some(stdout), repoName, target);
            (r.None? <==> exists i :: 0 <= i < |lines| && !BlankLine(lines[i]) && AfterStatus(lines[i]) == "")
            && (r.Some? ==> (y in r.value <==>
                 exists i :: 0 <= i < |lines| && PathLine(lines[i], CleanSubdir(target), repoName) == Kept(y)))
  {
    var lines := OutputLines(stdout);
    var results := IntendedLineResults(lines, CleanSubdir(target), repoName);
    CollectRaisesIff(results, |lines|);
    if Collect(results, |lines|).Some? {
      CollectedExactly(results, |lines|, y);
    }
  }

  // ---------------------------------------------------------------- the methods

  /** The loop over the output lines, given what each line contributes. */
  method ScanLines(results: seq<LineResult>) returns (r: Option<set<string>>)
    ensures r == Collect(results, |results|)
  {
    var found: set<string> := {};
    var i := 0;
    while i < |results|
      invariant 0 <= i <= |results|
      invariant Collect(results, i) == Some(found)
    {
      match results[i] {
        case Crashed =>
          CrashPersists(results, i + 1);
          return None;
        case Skipped =>
        case Kept(p) =>
          found := found + {p};
      }
      i := i + 1;
    }
    return Some(found);
  }

  lemma {:induction false} CrashPersists(results: seq<LineResult>, n: nat)
    requires n <= |results| && Collect(results, n).None?
    ensures Collect(results, |results|).None?
    decreases |results| - n
  {
    if n < |results| {
      CrashPersists(results, n + 1);
    }
  }

  /** `get_changed_files_in_dir(repo_path, target_subdir)`: sorted, free of duplicates, and
      holding exactly the collected paths; empty when the directory is missing, git failed or
      a line raised. */
  method GetChangedFilesInDir(dirExists: bool, stdout: Option<string>, repoName: string, target: string)
    returns (files: seq<string>)
    ensures SortedStrictly(files)
    ensures var s := ChangedSet(dirExists, stdout, repoName, target);
            if s.None? then files == [] else forall y :: y in files <==> y in s.value
  {
    var subdir := CleanSubdir(target);
    if !dirExists || stdout.None? {
      return [];
    }
    var lines := OutputLines(stdout.value);
    if NoChanges(lines) {
      return [];
    }
    var found := ScanLines(LineResults(lines, subdir, repoName));
    if found.None? {
      return [];
    }
    files := SortSet(found.value);
  }
}
