/**
 * Domain types of a parsed diff: a diff is a list of file changes, a file
 * change a list of hunks, a hunk a list of lines.  The types carry no
 * behaviour of their own; the invariants their doc comments promise are the
 * well-formedness predicates below.
 */
module DiffView {
  import opened Wrappers

  /** A file operation; the source declares it as an `int` enumeration. */
  datatype FileOp = FileModified | FileAdded | FileDeleted | FileRenamed | FileCopied

  /** The integer the source's `iota` gives each operation. */
  function FileOpValue(op: FileOp): (n: int)
    ensures 0 <= n < 5
  {
    match op
    case FileModified => 0
    case FileAdded => 1
    case FileDeleted => 2
    case FileRenamed => 3
    case FileCopied => 4
  }

  /** The operation with integer value `n`, if there is one. */
  function FileOpOf(n: int): Option<FileOp> {
    if n == 0 then Some(FileModified)
    else if n == 1 then Some(FileAdded)
    else if n == 2 then Some(FileDeleted)
    else if n == 3 then Some(FileRenamed)
    else if n == 4 then Some(FileCopied)
    else None
  }

  /** Exactly five operations exist, numbered 0 to 4, and numbering is a bijection. */
  lemma FileOpExactlyFive(op: FileOp, n: int)
    ensures FileOpOf(FileOpValue(op)) == Some(op)
    ensures FileOpOf(n).Some? <==> 0 <= n < 5
    ensures FileOpOf(n).Some? ==> FileOpValue(FileOpOf(n).value) == n
  {
  }

  /** The kind of a line within a hunk; an `int` enumeration in the source. */
  datatype LineType = LineContext | LineAdded | LineDeleted

  function LineTypeValue(t: LineType): (n: int)
    ensures 0 <= n < 3
  {
    match t
    case LineContext => 0
    case LineAdded => 1
    case LineDeleted => 2
  }

  function LineTypeOf(n: int): Option<LineType> {
    if n == 0 then Some(LineContext)
    else if n == 1 then Some(LineAdded)
    else if n == 2 then Some(LineDeleted)
    else None
  }

  /** Exactly three line types exist, numbered 0 to 2. */
  lemma LineTypeExactlyThree(t: LineType, n: int)
    ensures LineTypeOf(LineTypeValue(t)) == Some(t)
    ensures LineTypeOf(n).Some? <==> 0 <= n < 3
    ensures LineTypeOf(n).Some? ==> LineTypeValue(LineTypeOf(n).value) == n
  {
  }

  /** Permission bits: the source's `fs.FileMode` is a 32-bit unsigned integer. */
  newtype FileMode = x: int | 0 <= x < 0x1_0000_0000

  /** One line of a hunk, without its trailing newline. */
  datatype Line = Line(
    lineType: LineType,
    content: string,
    oldLineNum: int,   // 0 if the line is Added
    newLineNum: int,   // 0 if the line is Deleted
    noNewline: bool)   // the "\ No newline at end of file" marker followed it

  /** A contiguous block of changes, as introduced by `@@ -a,b +c,d @@ section`. */
  datatype Hunk = Hunk(
    oldStart: int,
    oldCount: int,
    newStart: int,
    newCount: int,
    section: string,
    lines: seq<Line>)

  /** The changes to one file. */
  datatype FileDiff = FileDiff(
    oldPath: string,       // empty for new files
    newPath: string,       // empty for deleted files
    operation: FileOp,
    isBinary: bool,        // binary files have no hunks
    oldMode: FileMode,     // 0 if unchanged
    newMode: FileMode,
    hunks: seq<Hunk>,
    extended: seq<string>) // raw extended headers, passed through

  /** A complete diff. */
  datatype Diff = Diff(files: seq<FileDiff>)

  /** Section of a classified story: the role it plays and its title. */
  datatype Section = Section(role: string, title: string)

  // ---------------------------------------------------------------------------
  // Invariants documented on the fields

  /** An Added line has no old line number, a Deleted line no new one. */
  predicate LineWellFormed(l: Line): (ok: bool)
    ensures l.lineType == LineContext ==> ok
    ensures ok && l.oldLineNum != 0 && l.newLineNum != 0 ==> l.lineType == LineContext
  {
    (l.lineType == LineAdded ==> l.oldLineNum == 0) &&
    (l.lineType == LineDeleted ==> l.newLineNum == 0)
  }

  /**
   * The numbering a parser produces: besides the zeros above, every number a
   * line does carry is a 1-based line number, so a Context line has both.
   */
  predicate LineNumbered(l: Line): (ok: bool)
    ensures ok ==> LineWellFormed(l)
    ensures ok ==> (l.lineType == LineContext <==> l.oldLineNum >= 1 && l.newLineNum >= 1)
  {
    LineWellFormed(l) &&
    (l.lineType != LineAdded ==> l.oldLineNum >= 1) &&
    (l.lineType != LineDeleted ==> l.newLineNum >= 1)
  }

  /** For numbered lines the zeros identify the line type in both directions. */
  lemma NumberedLineZeros(l: Line)
    requires LineNumbered(l)
    ensures l.oldLineNum == 0 <==> l.lineType == LineAdded
    ensures l.newLineNum == 0 <==> l.lineType == LineDeleted
    ensures l.lineType == LineContext <==> l.oldLineNum != 0 && l.newLineNum != 0
  {
  }

  /** A hunk is well formed when its lines are; a hunk of context lines always is. */
  predicate HunkWellFormed(h: Hunk): (ok: bool)
    ensures (forall i :: 0 <= i < |h.lines| ==> h.lines[i].lineType == LineContext) ==> ok
    ensures ok ==> forall i :: 0 <= i < |h.lines| && h.lines[i].lineType == LineAdded ==> h.lines[i].oldLineNum == 0
    ensures ok ==> forall i :: 0 <= i < |h.lines| && h.lines[i].lineType == LineDeleted ==> h.lines[i].newLineNum == 0
  {
    forall i :: 0 <= i < |h.lines| ==> LineWellFormed(h.lines[i])
  }

  /**
   * A file change is well formed when binary files carry no hunks, new files
   * have no old path, deleted files have no new path, and its hunks are well
   * formed.
   */
  predicate FileDiffWellFormed(f: FileDiff): (ok: bool)
    ensures ok ==> forall i, j :: 0 <= i < |f.hunks| && 0 <= j < |f.hunks[i].lines| ==> LineWellFormed(f.hunks[i].lines[j])
    ensures ok && f.isBinary ==> FileLines(f.hunks) == []
    ensures f.hunks == [] && f.operation != FileAdded && f.operation != FileDeleted ==> ok
  {
    (f.isBinary ==> f.hunks == []) &&
    (f.operation == FileAdded ==> f.oldPath == "") &&
    (f.operation == FileDeleted ==> f.newPath == "") &&
    (forall i :: 0 <= i < |f.hunks| ==> HunkWellFormed(f.hunks[i]))
  }

  /** A diff is well formed when its file changes are; then so is every line of it. */
  predicate DiffWellFormed(d: Diff): (ok: bool)
    ensures d.files == [] ==> ok
    ensures ok ==> forall i, j, k :: 0 <= i < |d.files| && 0 <= j < |d.files[i].hunks| && 0 <= k < |d.files[i].hunks[j].lines| ==>
      LineWellFormed(d.files[i].hunks[j].lines[k])
  {
    forall i :: 0 <= i < |d.files| ==> FileDiffWellFormed(d.files[i])
  }

  // ---------------------------------------------------------------------------
  // Line counts, as shown in a file header's "+N -M" statistics

  /** Number of lines of type `t` in `lines`. */
  function CountType(lines: seq<Line>, t: LineType): (count: nat)
    ensures count <= |lines|
    ensures count == 0 <==> forall i :: 0 <= i < |lines| ==> lines[i].lineType != t
  {
    if lines == [] then 0
    else CountType(lines[..|lines| - 1], t) + (if lines[|lines| - 1].lineType == t then 1 else 0)
  }

  /** Counting distributes over concatenation of line lists. */
  lemma {:induction false} CountTypeAppend(a: seq<Line>, b: seq<Line>, t: LineType)
    ensures CountType(a + b, t) == CountType(a, t) + CountType(b, t)
    decreases |b|
  {
    if b == [] {
      assert a + b == a;
    } else {
      assert (a + b)[..|a + b| - 1] == a + b[..|b| - 1];
      CountTypeAppend(a, b[..|b| - 1], t);
    }
  }

  /** Every line has exactly one of the three types. */
  lemma {:induction false} CountTypesPartition(lines: seq<Line>)
    ensures CountType(lines, LineContext) + CountType(lines, LineAdded) + CountType(lines, LineDeleted) == |lines|
  {
    if lines != [] {
      CountTypesPartition(lines[..|lines| - 1]);
    }
  }

  /** In a run of lines of one type `u`, every line counts for `u` and none for another type. */
  lemma {:induction false} CountRun(lines: seq<Line>, u: LineType, t: LineType)
    requires forall i :: 0 <= i < |lines| ==> lines[i].lineType == u
    ensures CountType(lines, t) == if t == u then |lines| else 0
  {
    if lines != [] {
      CountRun(lines[..|lines| - 1], u, t);
    }
  }

  /** The lines of all hunks of a file, in order. */
  function FileLines(hunks: seq<Hunk>): seq<Line> {
    if hunks == [] then [] else FileLines(hunks[..|hunks| - 1]) + hunks[|hunks| - 1].lines
  }

  /** Lines of type `t` over all hunks of a file: those among the file's lines. */
  function FileCount(hunks: seq<Hunk>, t: LineType): (count: nat)
    ensures count == CountType(FileLines(hunks), t)
  {
    if hunks == [] then 0
    else
      var prefix := hunks[..|hunks| - 1];
      CountTypeAppend(FileLines(prefix), hunks[|hunks| - 1].lines, t);
      FileCount(prefix, t) + CountType(hunks[|hunks| - 1].lines, t)
  }

  /**
   * The "+added -deleted" statistics of a file change: the Added and the
   * Deleted lines of its hunks, which together are at most all its lines.
   */
  function FileStats(f: FileDiff): (stats: (nat, nat))
    ensures stats.0 == CountType(FileLines(f.hunks), LineAdded)
    ensures stats.1 == CountType(FileLines(f.hunks), LineDeleted)
    ensures stats.0 + stats.1 <= |FileLines(f.hunks)|
  {
    CountTypesPartition(FileLines(f.hunks));
    (FileCount(f.hunks, LineAdded), FileCount(f.hunks, LineDeleted))
  }

  /** A binary file change counts no added and no deleted lines. */
  lemma BinaryFileHasNoStats(f: FileDiff)
    requires FileDiffWellFormed(f) && f.isBinary
    ensures FileStats(f) == (0, 0)
  {
  }

  /**
   * The lines of a hunk whose type contributes to the old side: Context and
   * Deleted; those of the new side are Context and Added.
   */
  function OldSideLines(h: Hunk): nat {
    CountType(h.lines, LineContext) + CountType(h.lines, LineDeleted)
  }

  function NewSideLines(h: Hunk): nat {
    CountType(h.lines, LineContext) + CountType(h.lines, LineAdded)
  }

  /** The header counts agree with the lines; a parser is expected to ensure this. */
  predicate HunkCountsMatch(h: Hunk) {
    OldSideLines(h) == h.oldCount && NewSideLines(h) == h.newCount
  }

  /**
   * When a hunk's header counts agree with its lines, the new count exceeds
   * the old one by the added minus the deleted lines, and the old count plus
   * the added lines is the number of lines.
   */
  lemma {:induction false} SideDifference(h: Hunk)
    requires HunkCountsMatch(h)
    ensures h.newCount - h.oldCount == CountType(h.lines, LineAdded) - CountType(h.lines, LineDeleted)
    ensures h.oldCount + CountType(h.lines, LineAdded) == |h.lines|
  {
    CountTypesPartition(h.lines);
  }

  // ---------------------------------------------------------------------------
  // Fixtures of the rendering tests

  /** The hunk the file-header statistics test renders. */
  function StatsFixture(): Hunk {
    Hunk(1, 5, 1, 7, "", [
      Line(LineContext, "context", 0, 0, false),
      Line(LineDeleted, "old1", 0, 0, false),
      Line(LineDeleted, "old2", 0, 0, false),
      Line(LineAdded, "new1", 0, 0, false),
      Line(LineAdded, "new2", 0, 0, false),
      Line(LineAdded, "new3", 0, 0, false),
      Line(LineAdded, "new4", 0, 0, false),
      Line(LineContext, "context", 0, 0, false)])
  }

  /**
   * The fixture's file shows "+4 -2".  Its lines are well formed, but its
   * header counts (5 and 7) do not match its lines (4 and 6).
   */
  lemma StatsFixtureCounts()
    ensures var f := FileDiff("a/handler.go", "b/handler.go", FileModified, false, 0, 0, [StatsFixture()], []);
      FileDiffWellFormed(f) && FileStats(f) == (4, 2)
    ensures OldSideLines(StatsFixture()) == 4 && NewSideLines(StatsFixture()) == 6
    ensures !HunkCountsMatch(StatsFixture())
  {
    var h := StatsFixture();
    StatsFixtureLineCounts();
    StatsFixtureWellFormed();
    assert FileLines([h]) == h.lines by {
      assert [h][..0] == [];
    }
  }

  /** The fixture's lines carry no line numbers, so each is well formed. */
  lemma StatsFixtureWellFormed()
    ensures HunkWellFormed(StatsFixture())
  {
    var ls := StatsFixture().lines;
    forall i | 0 <= i < |ls| ensures LineWellFormed(ls[i]) {
      assert ls[i].oldLineNum == 0 && ls[i].newLineNum == 0;
    }
  }

  /** The fixture's lines: two Context, four Added and two Deleted. */
  lemma StatsFixtureLineCounts()
    ensures CountType(StatsFixture().lines, LineContext) == 2
    ensures CountType(StatsFixture().lines, LineAdded) == 4
    ensures CountType(StatsFixture().lines, LineDeleted) == 2
  {
    var ls := StatsFixture().lines;
    var runs := [ls[..1], ls[1..3], ls[3..7], ls[7..]];
    assert ls == runs[0] + runs[1] + runs[2] + runs[3];
    forall t: LineType
      ensures CountType(ls, t) == CountType(runs[0], t) + CountType(runs[1], t) + CountType(runs[2], t) + CountType(runs[3], t)
    {
      CountTypeAppend(runs[0] + runs[1] + runs[2], runs[3], t);
      CountTypeAppend(runs[0] + runs[1], runs[2], t);
      CountTypeAppend(runs[0], runs[1], t);
    }
    forall t: LineType, k | 0 <= k < 4
      ensures CountType(runs[k], t) == if t == runs[k][0].lineType then |runs[k]| else 0
    {
      CountRun(runs[k], runs[k][0].lineType, t);
    }
  }

  /** Line `j` (0-based) of the large-diff fixture: types cycle Added, Deleted, Context. */
  function LargeFixtureLine(j: nat, content: string): Line {
    var t := if j % 3 == 0 then LineAdded else if j % 3 == 1 then LineDeleted else LineContext;
    Line(t, content,
         if t == LineAdded then 0 else j + 1,
         if t == LineDeleted then 0 else j + 1,
         false)
  }

  /** Every line of that fixture is numbered as a parser would number it. */
  lemma LargeFixtureNumbered(j: nat, content: string)
    ensures LineNumbered(LargeFixtureLine(j, content))
  {
  }

  /** The gutter test: context 10/10, deleted 11/-, added -/11. */
  lemma GutterFixtureNumbered()
    ensures LineNumbered(Line(LineContext, "context", 10, 10, false))
    ensures LineNumbered(Line(LineDeleted, "deleted", 11, 0, false))
    ensures LineNumbered(Line(LineAdded, "added", 0, 11, false))
  {
  }

  /** The empty-file fixtures: an added file with no old path, a deleted one with no new path. */
  lemma EmptyFileFixtures()
    ensures FileDiffWellFormed(FileDiff("", "empty.txt", FileAdded, false, 0, 0, [], []))
    ensures FileDiffWellFormed(FileDiff("deleted.txt", "", FileDeleted, false, 0, 0, [], []))
    ensures !FileDiffWellFormed(FileDiff("a/x", "empty.txt", FileAdded, false, 0, 0, [], []))
  {
  }
}
