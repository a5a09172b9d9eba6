/** Chain wrappers: when an operator already owns a hook variable, their script runs, then ours.
    What the wrapper text says must be read back, or uninstalling loses the operator's hook. */
module Chain {
  import opened Wrappers
  import opened Text
  import opened Paths

  const WRAP_MARKER := "# ghr-stats-wraps:"

  // The wrapper's fixed lines.
  const SHEBANG := "#!/usr/bin/env bash"
  const ABOUT := "# ghr-stats hook chain wrapper \U{2014} runs the existing hook, then records"
  const ABOUT_MORE := "# the ghr-stats event (best-effort). Preserves the original's exit code."
  const RUN_ORIGINAL := " \"$@\"; rc=$?"
  const RUN_OURS := " \"$@\" >/dev/null 2>&1 || true"
  const EXIT := "exit \"$rc\""

  // ---------------------------------------------------------------- the code

  function WrapperLines(original: string, ours: string): seq<string> {
    [ SHEBANG,
      ABOUT,
      ABOUT_MORE,
      WRAP_MARKER + " " + original,
      "\"" + original + "\"" + RUN_ORIGINAL,
      "\"" + ours + "\"" + RUN_OURS,
      EXIT ]
  }

  function RenderChainWrapper(original: string, ours: string): string {
    Unlines(WrapperLines(original, ours))
  }

  /** The path to wire into `.env`, and the wrapper to write at it, if any. */
  datatype SlotPlan = SlotPlan(target: string, wrapper: Option<string>)

  function PlanChainSlot(original: Option<string>, ours: string, wrapperPath: string): SlotPlan {
    match original
    case Some(o) => SlotPlan(wrapperPath, Some(RenderChainWrapper(o, ours)))
    case None => SlotPlan(ours, None)
  }

  function MarkedPath(line: string): Option<string> {
    match StripPrefix(Trim(line), WRAP_MARKER)
    case None => None
    case Some(rest) => if Trim(rest) == "" then None else Some(Trim(rest))
  }

  function FirstMarked(ls: seq<string>): Option<string> {
    if ls == [] then None
    else if MarkedPath(ls[0]).Some? then MarkedPath(ls[0])
    else FirstMarked(ls[1..])
  }

  function QuotedPath(line: string): Option<string> {
    var t := Trim(line);
    if t == "" || StartsWith(t, "#") then None
    else
      var pieces := SplitAll(t, '"');
      if |pieces| < 2 || pieces[1] == "" then None else Some(pieces[1])
  }

  function FirstQuoted(ls: seq<string>): Option<string> {
    if ls == [] then None
    else if QuotedPath(ls[0]).Some? then QuotedPath(ls[0])
    else FirstQuoted(ls[1..])
  }

  /** The marker line first; else the first quoted path of a command line. */
  function OriginalFromWrapper(text: string): Option<string> {
    var marked := FirstMarked(Lines(text));
    if marked.Some? then marked else FirstQuoted(Lines(text))
  }

  function SlugChar(c: char): char {
    if IsAlphanumeric(c) || c == '_' || c == '.' then c else '-'
  }

  function Slugged(dir: string): (r: string)
    ensures |r| == |dir| && forall i :: 0 <= i < |dir| ==> r[i] == SlugChar(dir[i])
  {
    seq(|dir|, i requires 0 <= i < |dir| => SlugChar(dir[i]))
  }

  function Slug(dir: string): string {
    TrimMatches(Slugged(dir), IsDash)
  }

  function StartedName(dir: string): string {
    "chain-" + Slug(dir) + "-started.sh"
  }

  function CompletedName(dir: string): string {
    "chain-" + Slug(dir) + "-completed.sh"
  }

  // --------------------------------------------------------- reading it back

  /** A line that differs from the marker within the marker's length is no marker line. */
  lemma NotMarked(line: string, i: nat)
    requires i < |WRAP_MARKER| && i < |line| && line[i] != WRAP_MARKER[i] && !IsWhitespace(line[0])
    ensures MarkedPath(line) == None
  {
    assert TrimStart(line, IsWhitespace) == line;
    TrimEndIs(line, IsWhitespace);
  }

  lemma MarkerReadsBack(original: string)
    ensures MarkedPath(StripCr(WRAP_MARKER + " " + original))
         == if Trim(original) == "" then None else Some(Trim(original))
  {
    var rest := " " + original;
    var line := WRAP_MARKER + " " + original;
    assert line == WRAP_MARKER + rest;
    TrimIgnoresCr(line);
    TrimAfterHead(WRAP_MARKER, rest, IsWhitespace);
    assert (WRAP_MARKER + TrimEnd(rest, IsWhitespace))[|WRAP_MARKER|..] == TrimEnd(rest, IsWhitespace);
    TrimStartEndCommute(rest, IsWhitespace);
    assert rest == [' '] + original;
    TrimPrepend(original, ' ', IsWhitespace);
  }

  lemma NothingToTrim(line: string)
    requires line != "" && !IsWhitespace(line[0]) && !IsWhitespace(line[|line| - 1])
    ensures Trim(line) == line
  {
    TrimMatchesIs(line, IsWhitespace);
  }

  lemma SplitBetween(before: string, x: string, tail: string)
    requires '"' !in before
    ensures var pieces := SplitAll(before + ['"'] + (x + ['"'] + tail), '"');
            |pieces| >= 2 && pieces[1] == SplitAll(x, '"')[0]
  {
    SplitAllConcat(before, '"', x + ['"'] + tail);
    SplitAllConcat(x, '"', tail);
    assert SplitAll(before, '"') == [before];
  }

  lemma QuotedIn(line: string, before: string, x: string, tail: string)
    requires line == before + ['"'] + (x + ['"'] + tail) && '"' !in before
    requires line[0] != '#' && !IsWhitespace(line[0]) && !IsWhitespace(line[|line| - 1])
    ensures var first := SplitAll(x, '"')[0];
            QuotedPath(line) == if first == "" then None else Some(first)
  {
    NothingToTrim(line);
    SplitBetween(before, x, tail);
  }

  /** A command line quoting `x` yields `x` up to a quote of its own. */
  lemma QuoteReadsBack(x: string, tail: string)
    requires EndsInk(tail)
    ensures var first := SplitAll(x, '"')[0];
            QuotedPath("\"" + x + "\"" + tail) == if first == "" then None else Some(first)
  {
    var line := "\"" + x + "\"" + tail;
    assert line[0] == '"' && line[|line| - 1] == tail[|tail| - 1];
    assert line == "" + ['"'] + (x + ['"'] + tail);
    QuotedIn(line, "", x, tail);
  }

  lemma {:induction false} SkipUnmarked(ls: seq<string>, n: nat)
    requires n <= |ls| && forall i :: 0 <= i < n ==> MarkedPath(ls[i]).None?
    ensures FirstMarked(ls) == FirstMarked(ls[n..])
  {
    if n > 0 {
      SkipUnmarked(ls[1..], n - 1);
      assert ls[1..][n - 1..] == ls[n..];
    } else {
      assert ls[0..] == ls;
    }
  }

  lemma {:induction false} SkipUnquoted(ls: seq<string>, n: nat)
    requires n <= |ls| && forall i :: 0 <= i < n ==> QuotedPath(ls[i]).None?
    ensures FirstQuoted(ls) == FirstQuoted(ls[n..])
  {
    if n > 0 {
      SkipUnquoted(ls[1..], n - 1);
      assert ls[1..][n - 1..] == ls[n..];
    } else {
      assert ls[0..] == ls;
    }
  }

  /** A line without newline or final carriage return reads back as written. */
  predicate IsPlainLine(l: string) {
    NoNewline(l) && !EndsInCr(l)
  }

  lemma SevenLines(a: string, b: string, c: string, d: string, e: string, f: string, g: string)
    requires IsPlainLine(a) && IsPlainLine(b) && IsPlainLine(c) && NoNewline(d)
    requires IsPlainLine(e) && IsPlainLine(f) && IsPlainLine(g)
    ensures Lines(Unlines([a, b, c, d, e, f, g])) == [a, b, c, StripCr(d), e, f, g]
  {
    var ls := [a, b, c, d, e, f, g];
    LinesOfUnlines(ls);
    var r := StripCrs(ls);
    assert r[0] == a && r[1] == b && r[2] == c && r[4] == e && r[5] == f && r[6] == g;
    assert r[3] == StripCr(d);
  }

  lemma AboutIsPlain()
    ensures IsPlainLine(ABOUT)
  {
    assert NoNewline("# ghr-stats hook chain wrapper ");
    assert NoNewline("# ghr-stats hook chain wrapper \U{2014} runs the existing ");
  }

  lemma AboutIsComment()
    ensures IsComment(ABOUT) && |ABOUT| > 11 && ABOUT[11] == ' '
  {
    var head := "# ghr-stats hook chain wrapper ";
    var more := "# ghr-stats hook chain wrapper \U{2014} runs the existing ";
    assert head[0] == '#' && head[11] == ' ' && more[0] == '#' && more[11] == ' ';
  }

  lemma AboutMoreIsPlain()
    ensures IsPlainLine(ABOUT_MORE)
  {
    assert NoNewline("# the ghr-stats event (best-effort). ");
  }

  lemma AboutMoreIsComment()
    ensures IsComment(ABOUT_MORE) && |ABOUT_MORE| > 2 && ABOUT_MORE[2] == 't'
  {
    var head := "# the ghr-stats event (best-effort). ";
    assert head[0] == '#' && head[2] == 't';
  }

  lemma CommandsArePlain()
    ensures IsPlainLine(SHEBANG) && IsPlainLine(RUN_ORIGINAL) && IsPlainLine(RUN_OURS) && IsPlainLine(EXIT)
  {
  }

  lemma QuotedIsPlain(x: string, tail: string)
    requires NoNewline(x) && IsPlainLine(tail) && tail != ""
    ensures IsPlainLine("\"" + x + "\"" + tail)
  {
  }

  lemma RenderedLines(original: string, ours: string)
    requires NoNewline(original) && NoNewline(ours)
    ensures Lines(RenderChainWrapper(original, ours))
         == [SHEBANG, ABOUT, ABOUT_MORE, StripCr(WRAP_MARKER + " " + original),
            "\"" + original + "\"" + RUN_ORIGINAL, "\"" + ours + "\"" + RUN_OURS, EXIT]
  {
    AboutIsPlain();
    AboutMoreIsPlain();
    CommandsArePlain();
    QuotedIsPlain(original, RUN_ORIGINAL);
    QuotedIsPlain(ours, RUN_OURS);
    SevenLines(SHEBANG, ABOUT, ABOUT_MORE, WRAP_MARKER + " " + original,
      "\"" + original + "\"" + RUN_ORIGINAL, "\"" + ours + "\"" + RUN_OURS, EXIT);
  }

  lemma HeadIsUnmarked(original: string, ours: string)
    ensures MarkedPath(SHEBANG).None? && MarkedPath(ABOUT).None? && MarkedPath(ABOUT_MORE).None?
    ensures MarkedPath("\"" + original + "\"" + RUN_ORIGINAL).None?
    ensures MarkedPath("\"" + ours + "\"" + RUN_OURS).None?
    ensures MarkedPath(EXIT).None?
  {
    AboutIsComment();
    AboutMoreIsComment();
    NotMarked(SHEBANG, 1);
    NotMarked(ABOUT, 11);
    NotMarked(ABOUT_MORE, 2);
    NotMarked("\"" + original + "\"" + RUN_ORIGINAL, 0);
    NotMarked("\"" + ours + "\"" + RUN_OURS, 0);
    NotMarked(EXIT, 0);
  }

  /** A line opening with a comment mark has no quoted path. */
  lemma CommentIsUnquoted(line: string)
    requires IsComment(line)
    ensures QuotedPath(line) == None
  {
    TrimEndIs(line, IsWhitespace);
    TrimEndKeeps(line, IsWhitespace);
  }

  lemma QuotedBetween(before: string, x: string)
    requires before != "" && !IsWhitespace(before[0]) && before[0] != '#' && '"' !in before && '"' !in x && x != ""
    ensures QuotedPath(before + "\"" + x + "\"") == Some(x)
  {
    var line := before + "\"" + x + "\"";
    assert line[0] == before[0] && line[|line| - 1] == '"';
    assert line == before + ['"'] + (x + ['"'] + "");
    QuotedIn(line, before, x, "");
    assert SplitAll(x, '"') == [x];
  }

  lemma FirstOfSeven(a: string, b: string, c: string, d: string, e: string, f: string, g: string)
    requires QuotedPath(a).None? && QuotedPath(b).None? && QuotedPath(c).None? && QuotedPath(d).None?
    ensures FirstQuoted([a, b, c, d, e, f, g]) ==
            if QuotedPath(e).Some? then QuotedPath(e)
            else if QuotedPath(f).Some? then QuotedPath(f)
            else QuotedPath(g)
  {
    var ls := [a, b, c, d, e, f, g];
    SkipUnquoted(ls, 4);
    assert ls[4..] == [e, f, g] && [e, f, g][1..] == [f, g] && [f, g][1..] == [g] && [g][1..] == [];
    assert FirstQuoted([g]) == QuotedPath(g);
    assert FirstQuoted([f, g]) == if QuotedPath(f).Some? then QuotedPath(f) else QuotedPath(g);
  }

  predicate IsComment(l: string) {
    l != "" && l[0] == '#'
  }

  predicate EndsInk(tail: string) {
    tail != "" && !IsWhitespace(tail[|tail| - 1])
  }

  lemma FixedLineShapes()
    ensures IsComment(SHEBANG) && IsComment(ABOUT) && IsComment(ABOUT_MORE)
    ensures EndsInk(RUN_ORIGINAL) && EndsInk(RUN_OURS)
  {
    AboutIsComment();
    AboutMoreIsComment();
  }

  lemma ExitIsQuoted()
    ensures QuotedPath(EXIT) == Some("$rc")
  {
    assert EXIT == "exit " + "\"" + "$rc" + "\"";
    QuotedBetween("exit ", "$rc");
  }

  lemma FirstQuotedIn(
    a: string, b: string, c: string, d: string, original: string, ro: string, ours: string, ru: string, g: string)
    requires IsComment(a) && IsComment(b) && IsComment(c) && IsComment(d)
    requires EndsInk(ro) && EndsInk(ru) && QuotedPath(g) == Some("$rc")
    ensures FirstQuoted([a, b, c, d, "\"" + original + "\"" + ro, "\"" + ours + "\"" + ru, g])
         == Some(Fallback(original, ours))
  {
    CommentIsUnquoted(a);
    CommentIsUnquoted(b);
    CommentIsUnquoted(c);
    CommentIsUnquoted(d);
    QuoteReadsBack(original, ro);
    QuoteReadsBack(ours, ru);
    FirstOfSeven(a, b, c, d, "\"" + original + "\"" + ro, "\"" + ours + "\"" + ru, g);
  }

  /** What is read when the marker line names nothing. */
  function Fallback(original: string, ours: string): string {
    var o, u := SplitAll(original, '"')[0], SplitAll(ours, '"')[0];
    if o != "" then o else if u != "" then u else "$rc"
  }

  lemma MarkedInSeven(a: string, b: string, c: string, d: string, e: string, f: string, g: string)
    requires MarkedPath(a).None? && MarkedPath(b).None? && MarkedPath(c).None?
    requires MarkedPath(e).None? && MarkedPath(f).None? && MarkedPath(g).None?
    ensures FirstMarked([a, b, c, d, e, f, g]) == MarkedPath(d)
  {
    var ls := [a, b, c, d, e, f, g];
    SkipUnmarked(ls, 3);
    assert ls[3..][0] == d && ls[3..][1..] == ls[4..];
    SkipUnmarked(ls[4..], 3);
  }

  lemma MarkerOf(original: string, ours: string)
    requires NoNewline(original) && NoNewline(ours)
    ensures FirstMarked(Lines(RenderChainWrapper(original, ours)))
         == if Trim(original) == "" then None else Some(Trim(original))
  {
    RenderedLines(original, ours);
    HeadIsUnmarked(original, ours);
    MarkerReadsBack(original);
    MarkedInSeven(SHEBANG, ABOUT, ABOUT_MORE, StripCr(WRAP_MARKER + " " + original),
      "\"" + original + "\"" + RUN_ORIGINAL, "\"" + ours + "\"" + RUN_OURS, EXIT);
  }

  lemma MarkerIsComment(original: string)
    ensures IsComment(StripCr(WRAP_MARKER + " " + original))
  {
    var line := WRAP_MARKER + " " + original;
    assert |line| > 1 && line[0] == '#';
  }

  lemma QuoteOf(original: string, ours: string)
    requires NoNewline(original) && NoNewline(ours)
    ensures FirstQuoted(Lines(RenderChainWrapper(original, ours))) == Some(Fallback(original, ours))
  {
    RenderedLines(original, ours);
    FixedLineShapes();
    ExitIsQuoted();
    MarkerIsComment(original);
    FirstQuotedIn(SHEBANG, ABOUT, ABOUT_MORE, StripCr(WRAP_MARKER + " " + original),
      original, RUN_ORIGINAL, ours, RUN_OURS, EXIT);
  }

  /** What any rendered wrapper reads back as. */
  lemma ReadsBackAs(original: string, ours: string)
    requires NoNewline(original) && NoNewline(ours)
    ensures OriginalFromWrapper(RenderChainWrapper(original, ours))
         == Some(if Trim(original) != "" then Trim(original) else Fallback(original, ours))
  {
    MarkerOf(original, ours);
    QuoteOf(original, ours);
  }

  /** The wrapper gives the operator's path back exactly when the path is neither empty nor padded
      with whitespace around something else. */
  lemma WrapperReadsBack(original: string, ours: string)
    requires NoNewline(original) && NoNewline(ours)
    ensures OriginalFromWrapper(RenderChainWrapper(original, ours)) == Some(original)
            <==> original != "" && (Trim(original) == original || Trim(original) == "")
  {
    ReadsBackAs(original, ours);
    if Trim(original) == "" {
      TrimsToNothing(original, IsWhitespace);
      assert '"' !in original;
      assert SplitAll(original, '"')[0] == original;
    }
  }

  /** A path the shell can be given in quotes. */
  predicate IsQuotable(x: string) {
    x != "" && '"' !in x
  }

  lemma QuotesItself(x: string, tail: string)
    requires EndsInk(tail)
    ensures QuotedPath("\"" + x + "\"" + tail) == Some(x) <==> IsQuotable(x)
  {
    QuoteReadsBack(x, tail);
    var i := IndexOf(x, '"');
    if i < 0 {
      assert SplitAll(x, '"') == [x];
    } else {
      assert SplitAll(x, '"')[0] == x[..i];
    }
  }

  lemma QuotedCommands(original: string, ours: string)
    ensures QuotedPath("\"" + original + "\"" + RUN_ORIGINAL) == Some(original) <==> IsQuotable(original)
    ensures QuotedPath("\"" + ours + "\"" + RUN_OURS) == Some(ours) <==> IsQuotable(ours)
  {
    FixedLineShapes();
    QuotesItself(original, RUN_ORIGINAL);
    QuotesItself(ours, RUN_OURS);
  }

  /** Comments, then three commands: `original`, `ours` and `exit`. */
  predicate RunsBoth(ls: seq<string>, original: string, ours: string, exit: string) {
    && |ls| == 7
    && IsComment(ls[0]) && IsComment(ls[1]) && IsComment(ls[2]) && IsComment(ls[3])
    && QuotedPath(ls[4]) == Some(original) && QuotedPath(ls[5]) == Some(ours) && ls[6] == exit
  }

  lemma RunsInSeven(a: string, b: string, c: string, d: string, e: string, f: string, g: string,
      original: string, ours: string)
    requires IsComment(a) && IsComment(b) && IsComment(c) && IsComment(d)
    ensures RunsBoth([a, b, c, d, e, f, g], original, ours, g)
            <==> QuotedPath(e) == Some(original) && QuotedPath(f) == Some(ours)
  {
  }

  /** The wrapper's commands run the original, then ours, and exit with the original's code, exactly when both
      paths can be quoted: the text puts them between quotes as they are. */
  lemma WrapperRunsBoth(original: string, ours: string)
    requires NoNewline(original) && NoNewline(ours)
    ensures RunsBoth(Lines(RenderChainWrapper(original, ours)), original, ours, EXIT)
            <==> IsQuotable(original) && IsQuotable(ours)
  {
    RenderedLines(original, ours);
    FixedLineShapes();
    MarkerIsComment(original);
    QuotedCommands(original, ours);
    RunsInSeven(SHEBANG, ABOUT, ABOUT_MORE, StripCr(WRAP_MARKER + " " + original),
      "\"" + original + "\"" + RUN_ORIGINAL, "\"" + ours + "\"" + RUN_OURS, EXIT, original, ours);
  }

  // ------------------------------------------------------------------- paths

  lemma SlugIsPlain(dir: string)
    ensures '/' !in Slug(dir) && NoNewline(Slug(dir))
  {
    TrimMatchesIs(Slugged(dir), IsDash);
  }

  lemma NamesArePlain(dir: string)
    ensures IsPlainName(StartedName(dir)) && NoNewline(StartedName(dir))
    ensures IsPlainName(CompletedName(dir)) && NoNewline(CompletedName(dir))
    ensures IsChainName(StartedName(dir)) && IsChainName(CompletedName(dir))
  {
    SlugIsPlain(dir);
    var s, c := StartedName(dir), CompletedName(dir);
    assert s[0] == 'c' && c[0] == 'c';
    assert s[|s| - 3..] == ".sh" && c[|c| - 3..] == ".sh";
  }

  /** `chain-*.sh`. */
  predicate IsChainName(name: string) {
    StartsWith(name, "chain-") && EndsWith(name, ".sh")
  }

  /** Wrapper names tell runners with different slugs apart, and the two hooks of one runner. */
  lemma NamesDiffer(dir: string, other: string)
    ensures StartedName(dir) != CompletedName(other)
    ensures Slug(dir) != Slug(other) ==>
      StartedName(dir) != StartedName(other) && CompletedName(dir) != CompletedName(other)
  {
    var s, c := StartedName(dir), CompletedName(other);
    assert s[|s| - 7] == 'r' && c[|c| - 7] == 'e';
    Between("chain-", Slug(dir), "-started.sh", Slug(other));
    Between("chain-", Slug(dir), "-completed.sh", Slug(other));
  }

  lemma Between(head: string, a: string, tail: string, b: string)
    ensures head + a + tail == head + b + tail ==> a == b
  {
    if head + a + tail == head + b + tail {
      assert (head + a + tail)[|head|..|head| + |a|] == a;
      assert (head + b + tail)[|head|..|head| + |b|] == b;
    }
  }

  /** The characters a slug keeps. */
  predicate IsKept(c: char) {
    'a' <= c <= 'z' || 'A' <= c <= 'Z' || '0' <= c <= '9' || c == '_' || c == '.'
  }

  /** A slug is the directory with a dash for every other character, and without dashes at its ends. */
  lemma SlugExactly(dir: string) returns (from: nat)
    ensures from + |Slug(dir)| <= |dir|
    ensures forall i :: 0 <= i < |Slug(dir)| ==> Slug(dir)[i] == if IsKept(dir[from + i]) then dir[from + i] else '-'
    ensures forall i :: 0 <= i < |dir| && (i < from || from + |Slug(dir)| <= i) ==> !IsKept(dir[i])
    ensures Slug(dir) != "" ==> Slug(dir)[0] != '-' && Slug(dir)[|Slug(dir)| - 1] != '-'
  {
    from := TrimIsExact(Slugged(dir), IsDash);
  }

  /** Two directories directly under the root, with names of kept characters, have slugs of their own. */
  lemma PlainSlugsDiffer(a: string, b: string)
    requires a != b && forall c :: c in a || c in b ==> IsKept(c)
    ensures Slug("/" + a) == a && Slug("/" + b) == b
  {
    PlainSlug(a);
    PlainSlug(b);
  }

  lemma PlainSlug(name: string)
    requires forall c :: c in name ==> IsKept(c)
    ensures Slug("/" + name) == name
  {
    var dir := "/" + name;
    var from := SlugExactly(dir);
    assert forall i :: 1 <= i < |dir| ==> IsKept(dir[i]) by {
      assert forall i :: 1 <= i < |dir| ==> dir[i] == name[i - 1] && name[i - 1] in name;
    }
    assert !IsKept(dir[0]);
    if name != "" {
      assert IsKept(dir[1]) && IsKept(dir[|dir| - 1]);
    }
  }

  /** Slugs are not injective: these two runners share their wrapper files. */
  lemma SlugsCollide()
    ensures Slug("/srv/a-b") == Slug("/srv/a/b")
  {
    var p, q := "/srv/a-b", "/srv/a/b";
    assert Slugged(p) == Slugged(q) by {
      assert forall i :: 0 <= i < 8 ==> SlugChar(p[i]) == SlugChar(q[i]);
    }
  }
}
