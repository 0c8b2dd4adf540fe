/**
  The directory-tree-and-contents report of `generate_tree_and_contents`.

  The filesystem walk and the file reads are inputs: a walk is the sequence of
  `(root, files)` pairs that `os.walk` yields, in the order it yields them, and
  each file carries the outcome of reading it (its text, or the description of
  the exception raised). From that input the report is built exactly as the
  Python code builds it: one tree line per directory and per file, four
  content lines per file, then the report text with its two headers.
 */
module TreeDump {
  import opened PyStrings
  import opened PosixPath
  import opened SeqFacts

  /** What reading one file produced: its decoded text, or the exception's text. */
  datatype ReadOutcome = Read(text: string) | ReadFailed(reason: string)

  /** One name of the `files` list of a walk entry, with the outcome of reading it. */
  datatype FileEntry = FileEntry(name: string, read: ReadOutcome)

  /** One `(root, dirs, files)` triple of the walk; `dirs` only steers the walk. */
  datatype WalkEntry = WalkEntry(root: string, files: seq<FileEntry>)

  /** The indentation unit repeated once per enclosing level. */
  const Pipe: string := "│   "
  /** The branch marker in front of every name except the root's. */
  const Branch: string := "├── "
  /** The width of the separator line of a content block. */
  const RuleWidth: nat := 80
  /** The separator line of a content block: `RuleWidth` '=' characters. */
  const Rule: string := Repeat("=", RuleWidth)
  const TreeHeader: string := "### DIRECTORY TREE ###\n\n"
  const ContentsHeader: string := "\n\n### FILE CONTENTS ###\n\n"
  const ReadFailurePrefix: string := "[Could not read file: "

  // ---------------------------------------------------------------------------
  // Tree lines
  // ---------------------------------------------------------------------------

  /**
    The nesting level of a directory: the separators left in its path after
    every occurrence of `rootPath` has been removed from it.
   */
  function Level(rootPath: string, root: string): nat
  {
    Count(RemoveAll(root, rootPath), Sep)
  }

  /**
    The prefix of a directory line: `(level - 1)` pipes, where Python's repeat
    by a negative count gives "", then a branch marker unless at level 0.
    Each level adds one four-character unit.
   */
  function DirIndent(level: nat): (r: string)
    ensures |r| == 4 * level
  {
    Repeat(Pipe, level as int - 1) + (if level > 0 then Branch else "")
  }

  /** The prefix of a file line: one unit deeper than its directory's. */
  function FileIndent(level: nat): (r: string)
    ensures r == DirIndent(level + 1)
    ensures |r| == 4 * level + 4
  {
    Repeat(Pipe, level) + Branch
  }

  function DirLine(rootPath: string, root: string): string
  {
    DirIndent(Level(rootPath, root)) + Basename(root) + "/"
  }

  function FileLine(level: nat, name: string): string
  {
    FileIndent(level) + name
  }

  /** The lines of the files of one directory, in the order given. */
  function FileLines(level: nat, files: seq<FileEntry>): (r: seq<string>)
    ensures |r| == |files|
    ensures forall i :: 0 <= i < |files| ==> r[i] == FileLine(level, files[i].name)
  {
    if files == [] then []
    else FileLines(level, files[..|files| - 1]) + [FileLine(level, files[|files| - 1].name)]
  }

  /** A directory's line followed immediately by its own file lines. */
  function EntryTreeLines(rootPath: string, e: WalkEntry): (r: seq<string>)
    ensures |r| == 1 + |e.files|
  {
    [DirLine(rootPath, e.root)] + FileLines(Level(rootPath, e.root), e.files)
  }

  /** Total number of files in the walk. */
  function FileCount(walk: seq<WalkEntry>): nat
  {
    if walk == [] then 0
    else FileCount(walk[..|walk| - 1]) + |walk[|walk| - 1].files|
  }

  /** The `tree_lines` list after the walk: one line per entry and per file. */
  function TreeLines(rootPath: string, walk: seq<WalkEntry>): (r: seq<string>)
    ensures |r| == |walk| + FileCount(walk)
  {
    if walk == [] then []
    else TreeLines(rootPath, walk[..|walk| - 1]) + EntryTreeLines(rootPath, walk[|walk| - 1])
  }

  // ---------------------------------------------------------------------------
  // Content lines
  // ---------------------------------------------------------------------------

  /** The content entry: the text read, or the placeholder naming the failure. */
  function ContentOf(read: ReadOutcome): string
  {
    match read
    case Read(text) => text
    case ReadFailed(reason) => ReadFailurePrefix + reason + "]"
  }

  /** The four `content_lines` entries appended for one file of directory `root`. */
  function Block(root: string, f: FileEntry): (r: seq<string>)
    ensures |r| == 4
  {
    ["\n" + Rule, "FILE: " + PathJoin(root, f.name), Rule + "\n", ContentOf(f.read)]
  }

  /** The blocks of the files of one directory, in the order given. */
  function Blocks(root: string, files: seq<FileEntry>): (r: seq<string>)
    ensures |r| == 4 * |files|
  {
    if files == [] then []
    else Blocks(root, files[..|files| - 1]) + Block(root, files[|files| - 1])
  }

  /** The `i`-th block of a directory's blocks belongs to its `i`-th file. */
  lemma {:induction false} BlocksAt(root: string, files: seq<FileEntry>, i: nat)
    requires i < |files|
    ensures Blocks(root, files)[4 * i .. 4 * i + 4] == Block(root, files[i])
  {
    var init, last := files[..|files| - 1], files[|files| - 1];
    assert Blocks(root, files) == Blocks(root, init) + Block(root, last);
    if i < |files| - 1 {
      BlocksAt(root, init, i);
      assert init[i] == files[i];
      SliceOfPrefix(Blocks(root, init), Block(root, last), 4 * i, 4 * i + 4);
    } else {
      assert Blocks(root, files)[4 * i ..] == Block(root, last);
    }
  }

  /** The `content_lines` list after the walk: four entries per file. */
  function ContentLines(walk: seq<WalkEntry>): (r: seq<string>)
    ensures |r| == 4 * FileCount(walk)
  {
    if walk == [] then []
    else ContentLines(walk[..|walk| - 1]) + Blocks(walk[|walk| - 1].root, walk[|walk| - 1].files)
  }

  // ---------------------------------------------------------------------------
  // The report
  // ---------------------------------------------------------------------------

  /** The text written to the output file, in the four writes' order. */
  function Report(treeLines: seq<string>, contentLines: seq<string>): string
  {
    TreeHeader + Join("\n", treeLines) + ContentsHeader + Join("\n", contentLines)
  }

  /** Appending one more file's line extends a directory's file lines. */
  lemma {:induction false} AppendFileLine(before: seq<string>, level: nat, files: seq<FileEntry>, i: nat, t: seq<string>)
    requires i < |files|
    requires t == before + FileLines(level, files[..i])
    ensures t + [FileLine(level, files[i].name)] == before + FileLines(level, files[..i + 1])
  {
    assert files[..i + 1][..i] == files[..i];
  }

  /** Appending one more file's four entries extends a directory's blocks. */
  lemma {:induction false} AppendBlock(before: seq<string>, root: string, files: seq<FileEntry>, i: nat, c: seq<string>)
    requires i < |files|
    requires c == before + Blocks(root, files[..i])
    ensures c + ["\n" + Rule] + ["FILE: " + PathJoin(root, files[i].name)] + [Rule + "\n"] + [ContentOf(files[i].read)]
         == before + Blocks(root, files[..i + 1])
  {
    var s, block := files[..i + 1], Block(root, files[i]);
    assert s[..|s| - 1] == files[..i] && s[|s| - 1] == files[i];
    assert Blocks(root, s) == Blocks(root, files[..i]) + block;
    assert c + [block[0]] + [block[1]] + [block[2]] + [block[3]] == c + block;
    ConcatAssoc(before, Blocks(root, files[..i]), block);
  }

  /** A directory's line and its file lines extend the walk's tree lines by one entry. */
  lemma {:induction false} AppendEntryLines(rootPath: string, walk: seq<WalkEntry>, j: nat, t: seq<string>)
    requires j < |walk|
    requires t == TreeLines(rootPath, walk[..j]) + [DirLine(rootPath, walk[j].root)]
                  + FileLines(Level(rootPath, walk[j].root), walk[j].files)
    ensures t == TreeLines(rootPath, walk[..j + 1])
  {
    var w := walk[..j + 1];
    assert w[..|w| - 1] == walk[..j] && w[|w| - 1] == walk[j];
    var e := walk[j];
    ConcatAssoc(TreeLines(rootPath, walk[..j]), [DirLine(rootPath, e.root)], FileLines(Level(rootPath, e.root), e.files));
  }

  /** A directory's blocks extend the walk's content lines by one entry. */
  lemma {:induction false} AppendEntryBlocks(walk: seq<WalkEntry>, j: nat, c: seq<string>)
    requires j < |walk|
    requires c == ContentLines(walk[..j]) + Blocks(walk[j].root, walk[j].files)
    ensures c == ContentLines(walk[..j + 1])
  {
    var w := walk[..j + 1];
    assert w[..|w| - 1] == walk[..j] && w[|w| - 1] == walk[j];
  }

  /**
    Builds `tree_lines`, `content_lines` and the report text from the walk,
    entry by entry and file by file, as the nested loops do.
   */
  method GenerateTreeAndContents(rootPath: string, walk: seq<WalkEntry>)
    returns (treeLines: seq<string>, contentLines: seq<string>, report: string)
    ensures treeLines == TreeLines(rootPath, walk)
    ensures contentLines == ContentLines(walk)
    ensures report == Report(treeLines, contentLines)
  {
    treeLines := [];
    contentLines := [];
    var j := 0;
    while j < |walk|
      invariant 0 <= j <= |walk|
      invariant treeLines == TreeLines(rootPath, walk[..j])
      invariant contentLines == ContentLines(walk[..j])
    {
      var root := walk[j].root;
      var files := walk[j].files;
      var level := Level(rootPath, root);
      var indent := DirIndent(level);
      treeLines := treeLines + [indent + Basename(root) + "/"];

      ghost var treeBefore, contentBefore := treeLines, contentLines;
      var i := 0;
      while i < |files|
        invariant 0 <= i <= |files|
        invariant treeLines == treeBefore + FileLines(level, files[..i])
        invariant contentLines == contentBefore + Blocks(root, files[..i])
      {
        var f := files[i];
        var fileIndent := FileIndent(level);
        AppendFileLine(treeBefore, level, files, i, treeLines);
        assert fileIndent + f.name == FileLine(level, files[i].name);
        treeLines := treeLines + [fileIndent + f.name];

        var fullPath := PathJoin(root, f.name);
        var content;
        match f.read {
          case Read(text) => content := text;
          case ReadFailed(reason) => content := ReadFailurePrefix + reason + "]";
        }
        assert content == ContentOf(files[i].read);
        AppendBlock(contentBefore, root, files, i, contentLines);
        contentLines := contentLines + ["\n" + Rule];
        contentLines := contentLines + ["FILE: " + fullPath];
        contentLines := contentLines + [Rule + "\n"];
        contentLines := contentLines + [content];
        i := i + 1;
      }
      assert files[..i] == files;
      AppendEntryLines(rootPath, walk, j, treeLines);
      AppendEntryBlocks(walk, j, contentLines);
      j := j + 1;
    }
    assert walk[..j] == walk;

    report := TreeHeader;
    report := report + Join("\n", treeLines);
    report := report + ContentsHeader;
    report := report + Join("\n", contentLines);
  }
}
