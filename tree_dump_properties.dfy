/**
  What the report generator guarantees, stated over the specification
  functions of `TreeDump`: how levels are computed (quirks included), the exact
  shape of every tree line and content block, how the k-th file line and the
  k-th content block belong to the same file, that a failed read only changes
  that file's content entry, and the layout of the report text.
 */
module TreeDumpProperties {
  import opened PyStrings
  import opened PosixPath
  import opened TreeDump
  import opened SeqFacts

  // ---------------------------------------------------------------------------
  // Levels
  // ---------------------------------------------------------------------------

  /** The root directory itself is at level 0, whatever `rootPath` is. */
  lemma {:induction false} LevelOfRoot(rootPath: string)
    ensures Level(rootPath, rootPath) == 0
  {
    if rootPath != "" {
      RemoveAllLeading(rootPath, "");
      assert rootPath + "" == rootPath;
    }
  }

  /**
    Below the root, when `rootPath` does not occur again in the rest of the
    path, the level is the number of separators in that rest.
   */
  lemma {:induction false} LevelBelowRoot(rootPath: string, rest: string)
    requires rootPath != ""
    requires forall i :: !OccursAt(rest, rootPath, i)
    ensures Level(rootPath, rootPath + rest) == Count(rest, Sep)
  {
    RemoveAllLeading(rootPath, rest);
    RemoveAllAbsent(rest, rootPath);
  }

  /**
    Every occurrence of `rootPath` is removed, not only the leading one: a
    directory `c/a/b` below `a/b` has three separators after the root, but
    the second `a/b` is removed too and the level is 2.
   */
  lemma {:induction false} LevelRepeatedRootQuirk()
    ensures Count("/c/a/b", Sep) == 3
    ensures Level("a/b", "a/b/c/a/b") == 2
  {
    assert "a/b/c/a/b" == "a/b" + "/c/a/b";
    RemoveAllLeading("a/b", "/c/a/b");
    RepeatedRootRemoved();
    assert Count("/c/", Sep) == 2;
  }

  /** Both the leading `a/b` and the one after `/c/` are removed. */
  lemma {:induction false} RepeatedRootRemoved()
    ensures RemoveAll("/c/a/b", "a/b") == "/c/"
  {
    var rest := "/c/a/b";
    assert rest[..3][0] != "a/b"[0];
    assert rest[1..][..3][0] != "a/b"[0];
    assert rest[2..][..3][1] != "a/b"[1];
    assert rest[3..] == "a/b";
    assert RemoveAll(rest[3..], "a/b") == "" by {
      RemoveAllLeading("a/b", "");
      assert "a/b" + "" == "a/b";
    }
  }

  /**
    A trailing separator on `rootPath` shifts every level down by one: the
    root's children are at level 0, like the root, and the root's own line
    is just "/" because its basename is empty.
   */
  lemma {:induction false} TrailingSeparatorQuirk()
    ensures Level("d/", "d/x") == 0
    ensures DirLine("d/", "d/x") == "x/"
    ensures DirLine("d/", "d/") == "/"
  {
    assert "d/x" == "d/" + "x";
    RemoveAllLeading("d/", "x");
    LevelOfRoot("d/");
    assert "d/x"[..2] == "d/";
    assert Basename("d/x") == Basename("d/") + ['x'];
    assert Basename("d/") == "";
  }

  // ---------------------------------------------------------------------------
  // Indentation
  // ---------------------------------------------------------------------------

  /**
    A directory line at level L > 0 is indented by L units: L - 1 pipes and
    then the branch marker; at level 0 it has no prefix at all.
   */
  lemma {:induction false} IndentUnits(level: nat, k: nat)
    requires k < level
    ensures 4 * k + 4 <= |DirIndent(level)|
    ensures DirIndent(level)[4 * k .. 4 * k + 4] == if k < level - 1 then Pipe else Branch
  {
    var pipes := Repeat(Pipe, level - 1);
    assert DirIndent(level) == pipes + Branch;
    if k < level - 1 {
      RepeatUnit(Pipe, level - 1, k);
      assert DirIndent(level)[4 * k .. 4 * k + 4] == pipes[4 * k .. 4 * k + 4];
    } else {
      assert |pipes| == 4 * k;
    }
  }

  /** The line of a directory at level 0, the root, is its basename and "/". */
  lemma {:induction false} RootLine(rootPath: string, root: string)
    requires Level(rootPath, root) == 0
    ensures DirLine(rootPath, root) == Basename(root) + "/"
  {
    assert DirIndent(0) == "";
  }

  /**
    A file line under a level-L directory is L pipes, the branch marker and
    the file name: one unit deeper than its directory's line.
   */
  lemma {:induction false} FileLineUnits(level: nat, name: string, k: nat)
    requires k <= level
    ensures |FileLine(level, name)| == 4 * level + 4 + |name|
    ensures FileLine(level, name)[4 * k .. 4 * k + 4] == if k < level then Pipe else Branch
    ensures FileLine(level, name)[4 * level + 4 ..] == name
  {
    IndentUnits(level + 1, k);
    assert FileLine(level, name)[4 * k .. 4 * k + 4] == FileIndent(level)[4 * k .. 4 * k + 4];
  }

  // ---------------------------------------------------------------------------
  // Content blocks
  // ---------------------------------------------------------------------------

  /**
    A block is: a line holding a newline and 80 '=', the banner
    "FILE: " + os.path.join(root, name), 80 '=' and a newline, then the content.
   */
  lemma {:induction false} BlockShape(root: string, f: FileEntry)
    ensures var b := Block(root, f);
      && |b[0]| == 81 && b[0][0] == '\n' && (forall k :: 1 <= k < 81 ==> b[0][k] == '=')
      && |b[2]| == 81 && b[2][80] == '\n' && (forall k :: 0 <= k < 80 ==> b[2][k] == '=')
      && b[1][..6] == "FILE: " && b[1][6..] == PathJoin(root, f.name)
      && (Sep !in f.name ==> Basename(b[1][6..]) == f.name)
      && b[3] == (match f.read case Read(text) => text case ReadFailed(e) => "[Could not read file: " + e + "]")
  {
    var b := Block(root, f);
    assert b[0] == "\n" + Rule;
    assert b[1][6..] == PathJoin(root, f.name);
    if Sep !in f.name {
      BasenameOfJoin(root, f.name);
    }
  }

  /**
    A failed read keeps the block's shape: only the content entry differs
    from the block of a successful read of the same file.
   */
  lemma {:induction false} FailedReadKeepsShape(root: string, name: string, reason: string, text: string)
    ensures Block(root, FileEntry(name, ReadFailed(reason)))[..3] == Block(root, FileEntry(name, Read(text)))[..3]
    ensures Block(root, FileEntry(name, ReadFailed(reason)))[3] == "[Could not read file: " + reason + "]"
  {
  }

  // ---------------------------------------------------------------------------
  // Concatenation laws of the walk functions
  // ---------------------------------------------------------------------------

  lemma {:induction false} FileCountAppend(a: seq<WalkEntry>, b: seq<WalkEntry>)
    ensures FileCount(a + b) == FileCount(a) + FileCount(b)
  {
    if b == [] {
      assert a + b == a;
    } else {
      assert (a + b)[..|a + b| - 1] == a + b[..|b| - 1];
      FileCountAppend(a, b[..|b| - 1]);
    }
  }

  lemma {:induction false} TreeLinesAppend(rootPath: string, a: seq<WalkEntry>, b: seq<WalkEntry>)
    ensures TreeLines(rootPath, a + b) == TreeLines(rootPath, a) + TreeLines(rootPath, b)
  {
    if b == [] {
      assert a + b == a;
    } else {
      var init, last := b[..|b| - 1], b[|b| - 1];
      assert (a + b)[..|a + b| - 1] == a + init;
      assert (a + b)[|a + b| - 1] == last;
      TreeLinesAppend(rootPath, a, init);
      assert TreeLines(rootPath, a + b) == TreeLines(rootPath, a + init) + EntryTreeLines(rootPath, last);
      ConcatAssoc(TreeLines(rootPath, a), TreeLines(rootPath, init), EntryTreeLines(rootPath, last));
    }
  }

  lemma {:induction false} ContentLinesAppend(a: seq<WalkEntry>, b: seq<WalkEntry>)
    ensures ContentLines(a + b) == ContentLines(a) + ContentLines(b)
  {
    if b == [] {
      assert a + b == a;
    } else {
      var init, last := b[..|b| - 1], b[|b| - 1];
      assert (a + b)[..|a + b| - 1] == a + init;
      assert (a + b)[|a + b| - 1] == last;
      ContentLinesAppend(a, init);
      assert ContentLines(a + b) == ContentLines(a + init) + Blocks(last.root, last.files);
      ConcatAssoc(ContentLines(a), ContentLines(init), Blocks(last.root, last.files));
    }
  }

  lemma {:induction false} BlocksAppend(root: string, a: seq<FileEntry>, b: seq<FileEntry>)
    ensures Blocks(root, a + b) == Blocks(root, a) + Blocks(root, b)
  {
    if b == [] {
      assert a + b == a;
    } else {
      var init, last := b[..|b| - 1], b[|b| - 1];
      assert (a + b)[..|a + b| - 1] == a + init;
      assert (a + b)[|a + b| - 1] == last;
      BlocksAppend(root, a, init);
      assert Blocks(root, a + b) == Blocks(root, a + init) + Block(root, last);
      ConcatAssoc(Blocks(root, a), Blocks(root, init), Block(root, last));
    }
  }

  /** The walk split around its entry `j`. */
  lemma {:induction false} SplitAt(walk: seq<WalkEntry>, j: nat)
    requires j < |walk|
    ensures walk == walk[..j] + [walk[j]] + walk[j + 1..]
  {
  }

  // ---------------------------------------------------------------------------
  // Tree lines and content blocks line up
  // ---------------------------------------------------------------------------

  /**
    Entry `j`'s directory line sits at index j + (files of the entries before
    it): one line for each earlier directory and each earlier file.
   */
  lemma {:induction false} DirLineAt(rootPath: string, walk: seq<WalkEntry>, j: nat)
    requires j < |walk|
    ensures j + FileCount(walk[..j]) < |TreeLines(rootPath, walk)|
    ensures TreeLines(rootPath, walk)[j + FileCount(walk[..j])] == DirLine(rootPath, walk[j].root)
  {
    EntryLineAt(rootPath, walk, j, 0);
    EntryDirLine(rootPath, walk[j]);
  }

  /** The first of a directory's own lines is its directory line. */
  lemma {:induction false} EntryDirLine(rootPath: string, e: WalkEntry)
    ensures EntryTreeLines(rootPath, e)[0] == DirLine(rootPath, e.root)
  {
  }

  /**
    The line of file `i` of entry `j` follows its directory's line and the
    lines of the files before it in the same directory.
   */
  lemma {:induction false} FileLineAt(rootPath: string, walk: seq<WalkEntry>, j: nat, i: nat)
    requires j < |walk| && i < |walk[j].files|
    ensures j + FileCount(walk[..j]) + 1 + i < |TreeLines(rootPath, walk)|
    ensures TreeLines(rootPath, walk)[j + FileCount(walk[..j]) + 1 + i]
         == FileLine(Level(rootPath, walk[j].root), walk[j].files[i].name)
  {
    EntryLineAt(rootPath, walk, j, 1 + i);
    EntryFileLine(rootPath, walk[j], i);
  }

  /** Line `t` of entry `j`'s own lines, at its place in the whole tree. */
  lemma {:induction false} EntryLineAt(rootPath: string, walk: seq<WalkEntry>, j: nat, t: nat)
    requires j < |walk| && t <= |walk[j].files|
    ensures j + FileCount(walk[..j]) + |walk[j].files| < |TreeLines(rootPath, walk)|
    ensures TreeLines(rootPath, walk)[j + FileCount(walk[..j]) + t] == EntryTreeLines(rootPath, walk[j])[t]
  {
    var before, after := TreeLinesSplit(rootPath, walk, j);
    var x, mid := TreeLines(rootPath, walk), EntryTreeLines(rootPath, walk[j]);
    IndexOfMiddle(x, before, mid, after, t, j + FileCount(walk[..j]) + t);
    IndexOfMiddle(x, before, mid, after, |walk[j].files|, j + FileCount(walk[..j]) + |walk[j].files|);
  }

  /** The lines before entry `j` and after it, around the entry's own lines. */
  lemma {:induction false} TreeLinesSplit(rootPath: string, walk: seq<WalkEntry>, j: nat) returns (before: seq<string>, after: seq<string>)
    requires j < |walk|
    ensures |before| == j + FileCount(walk[..j])
    ensures TreeLines(rootPath, walk) == before + EntryTreeLines(rootPath, walk[j]) + after
  {
    TreeLinesAround(rootPath, walk, j);
    before, after := TreeLines(rootPath, walk[..j]), TreeLines(rootPath, walk[j + 1..]);
  }

  /** Line `1 + i` of a directory's own lines is the line of its file `i`. */
  lemma {:induction false} EntryFileLine(rootPath: string, e: WalkEntry, i: nat)
    requires i < |e.files|
    ensures 1 + i < |EntryTreeLines(rootPath, e)|
    ensures EntryTreeLines(rootPath, e)[1 + i] == FileLine(Level(rootPath, e.root), e.files[i].name)
  {
  }

  /** The tree lines split around entry `j`: before it, its own lines, after it. */
  lemma {:induction false} TreeLinesAround(rootPath: string, walk: seq<WalkEntry>, j: nat)
    requires j < |walk|
    ensures TreeLines(rootPath, walk)
         == TreeLines(rootPath, walk[..j]) + EntryTreeLines(rootPath, walk[j]) + TreeLines(rootPath, walk[j + 1..])
  {
    var e := walk[j];
    SplitAt(walk, j);
    assert [e][..0] == [];
    TreeLinesAppend(rootPath, walk[..j] + [e], walk[j + 1..]);
    TreeLinesAppend(rootPath, walk[..j], [e]);
    assert TreeLines(rootPath, [e]) == EntryTreeLines(rootPath, e);
  }

  /**
    The k-th block of `content_lines`, k = (files of the entries before `j`)
    + i, is the block of file `i` of entry `j`.
   */
  lemma {:induction false} BlockAt(walk: seq<WalkEntry>, j: nat, i: nat)
    requires j < |walk| && i < |walk[j].files|
    ensures var k := FileCount(walk[..j]) + i;
      && 4 * k + 4 <= |ContentLines(walk)|
      && ContentLines(walk)[4 * k .. 4 * k + 4] == Block(walk[j].root, walk[j].files[i])
  {
    EntryBlockAt(walk, j, i);
    BlocksAt(walk[j].root, walk[j].files, i);
  }

  /** Block `i` of entry `j`'s blocks, at its place in the whole content list. */
  lemma {:induction false} EntryBlockAt(walk: seq<WalkEntry>, j: nat, i: nat)
    requires j < |walk| && i < |walk[j].files|
    ensures 4 * (FileCount(walk[..j]) + i) + 4 <= |ContentLines(walk)|
    ensures ContentLines(walk)[4 * (FileCount(walk[..j]) + i) .. 4 * (FileCount(walk[..j]) + i) + 4]
         == Blocks(walk[j].root, walk[j].files)[4 * i .. 4 * i + 4]
  {
    var before, after := ContentLinesSplit(walk, j);
    var x, mid := ContentLines(walk), Blocks(walk[j].root, walk[j].files);
    var from := 4 * (FileCount(walk[..j]) + i);
    SliceOfMiddle(x, before, mid, after, 4 * i, 4 * i + 4, from, from + 4);
    assert x[from .. from + 4] == mid[4 * i .. 4 * i + 4];
  }

  /** The content lines before entry `j` and after it, around the entry's blocks. */
  lemma {:induction false} ContentLinesSplit(walk: seq<WalkEntry>, j: nat) returns (before: seq<string>, after: seq<string>)
    requires j < |walk|
    ensures |before| == 4 * FileCount(walk[..j])
    ensures ContentLines(walk) == before + Blocks(walk[j].root, walk[j].files) + after
  {
    ContentLinesAround(walk, j);
    before, after := ContentLines(walk[..j]), ContentLines(walk[j + 1..]);
  }

  /**
    The k-th file line and the k-th content block come from the same `root`
    and file name: the line shows the name at its level, the banner shows
    os.path.join(root, name), whose basename is the name again.
   */
  lemma {:induction false} FileLineMatchesBanner(rootPath: string, walk: seq<WalkEntry>, j: nat, i: nat)
    requires j < |walk| && i < |walk[j].files|
    ensures var k := FileCount(walk[..j]) + i;
      var root, name := walk[j].root, walk[j].files[i].name;
      && j + k + 1 < |TreeLines(rootPath, walk)|
      && 4 * k + 1 < |ContentLines(walk)|
      && TreeLines(rootPath, walk)[j + k + 1] == FileLine(Level(rootPath, root), name)
      && ContentLines(walk)[4 * k + 1] == "FILE: " + PathJoin(root, name)
      && (Sep !in name ==> Basename(PathJoin(root, name)) == name)
  {
    FileLineAt(rootPath, walk, j, i);
    BannerAt(walk, j, i);
    var name := walk[j].files[i].name;
    if Sep !in name {
      BasenameOfJoin(walk[j].root, name);
    }
  }

  /**
    Conversely, every traversal index `k` below the number of files belongs to
    a file: file `i` of entry `j`, with k = (files of entries before `j`) + i.
   */
  lemma {:induction false} FileOfIndex(walk: seq<WalkEntry>, k: nat) returns (j: nat, i: nat)
    requires k < FileCount(walk)
    ensures j < |walk| && i < |walk[j].files|
    ensures k == FileCount(walk[..j]) + i
  {
    var init := walk[..|walk| - 1];
    if k < FileCount(init) {
      j, i := FileOfIndex(init, k);
      assert walk[..j] == init[..j];
    } else {
      j, i := |walk| - 1, k - FileCount(init);
    }
  }

  /** Entries further on are preceded by at least as many files. */
  lemma {:induction false} FileCountPrefixGrows(walk: seq<WalkEntry>, a: nat, b: nat)
    requires a <= b <= |walk|
    ensures FileCount(walk[..a]) + (if a < b then |walk[a].files| else 0) <= FileCount(walk[..b])
  {
    if a < b {
      FileCountAppend(walk[..a + 1], walk[a + 1 .. b]);
      assert walk[..a + 1] + walk[a + 1 .. b] == walk[..b];
      var w := walk[..a + 1];
      assert w[..|w| - 1] == walk[..a] && w[|w| - 1] == walk[a];
    }
  }

  /** Distinct files have distinct traversal indices: the matching is one to one. */
  lemma {:induction false} FileIndexUnique(walk: seq<WalkEntry>, j: nat, i: nat, j': nat, i': nat)
    requires j < |walk| && i < |walk[j].files|
    requires j' < |walk| && i' < |walk[j'].files|
    requires FileCount(walk[..j]) + i == FileCount(walk[..j']) + i'
    ensures j == j' && i == i'
  {
    if j < j' {
      FileCountPrefixGrows(walk, j, j');
    } else if j' < j {
      FileCountPrefixGrows(walk, j', j);
    }
  }

  /**
    Every content banner belongs to a file line: for each k below the number
    of files, the k-th banner is `os.path.join(root, name)` of the very file
    whose line is the k-th file line of the tree.
   */
  lemma {:induction false} BannerOfFileLine(rootPath: string, walk: seq<WalkEntry>, k: nat) returns (j: nat, i: nat)
    requires k < FileCount(walk)
    ensures j < |walk| && i < |walk[j].files| && k == FileCount(walk[..j]) + i
    ensures j + k + 1 < |TreeLines(rootPath, walk)| && 4 * k + 1 < |ContentLines(walk)|
    ensures TreeLines(rootPath, walk)[j + k + 1] == FileLine(Level(rootPath, walk[j].root), walk[j].files[i].name)
    ensures ContentLines(walk)[4 * k + 1] == "FILE: " + PathJoin(walk[j].root, walk[j].files[i].name)
  {
    j, i := FileOfIndex(walk, k);
    FileLineAt(rootPath, walk, j, i);
    BannerAt(walk, j, i);
    var t, c := TreeLines(rootPath, walk), ContentLines(walk);
    assert j + k + 1 == j + FileCount(walk[..j]) + 1 + i;
    assert t[j + k + 1] == t[j + FileCount(walk[..j]) + 1 + i];
    assert c[4 * k + 1] == c[4 * (FileCount(walk[..j]) + i) + 1];
  }

  /** The banner of file `i` of entry `j`: the second entry of its block. */
  lemma {:induction false} BannerAt(walk: seq<WalkEntry>, j: nat, i: nat)
    requires j < |walk| && i < |walk[j].files|
    ensures 4 * (FileCount(walk[..j]) + i) + 1 < |ContentLines(walk)|
    ensures ContentLines(walk)[4 * (FileCount(walk[..j]) + i) + 1]
         == "FILE: " + PathJoin(walk[j].root, walk[j].files[i].name)
  {
    var k := FileCount(walk[..j]) + i;
    BlockAt(walk, j, i);
    assert ContentLines(walk)[4 * k + 1] == ContentLines(walk)[4 * k .. 4 * k + 4][1];
  }

  // ---------------------------------------------------------------------------
  // A failed read is recovered locally
  // ---------------------------------------------------------------------------

  /** The walk in which reading file `i` of entry `j` failed with `reason`. */
  function WithFailedRead(walk: seq<WalkEntry>, j: nat, i: nat, reason: string): (w: seq<WalkEntry>)
    requires j < |walk| && i < |walk[j].files|
    ensures |w| == |walk|
  {
    var e := walk[j];
    walk[j := e.(files := e.files[i := e.files[i].(read := ReadFailed(reason))])]
  }

  /**
    Replacing one file's read outcome by a failure changes its directory's
    blocks in one place only: that file's content entry.
   */
  lemma {:induction false} FailedReadInBlocks(root: string, files: seq<FileEntry>, i: nat, reason: string)
    requires i < |files|
    ensures 4 * i + 3 < |Blocks(root, files)|
    ensures Blocks(root, files[i := files[i].(read := ReadFailed(reason))])
         == Blocks(root, files)[4 * i + 3 := "[Could not read file: " + reason + "]"]
  {
    var f := files[i];
    var f' := f.(read := ReadFailed(reason));
    var placeholder := "[Could not read file: " + reason + "]";
    var head, tail := BlocksReplace(root, files, i, f');
    assert Block(root, f') == Block(root, f)[3 := placeholder];
    UpdateMiddle(Blocks(root, files), Blocks(root, files[i := f']), head, Block(root, f), tail, 3, 4 * i + 3, placeholder);
  }

  /**
    Replacing file `i` by `f'` replaces its block and nothing else: the
    blocks before and after it are shared.
   */
  lemma {:induction false} BlocksReplace(root: string, files: seq<FileEntry>, i: nat, f': FileEntry)
    returns (head: seq<string>, tail: seq<string>)
    requires i < |files|
    ensures |head| == 4 * i
    ensures Blocks(root, files) == head + Block(root, files[i]) + tail
    ensures Blocks(root, files[i := f']) == head + Block(root, f') + tail
  {
    var files' := files[i := f'];
    assert files'[..i] == files[..i] && files'[i + 1..] == files[i + 1..] && files'[i] == f';
    BlocksAround(root, files, i);
    BlocksAround(root, files', i);
    head, tail := Blocks(root, files[..i]), Blocks(root, files[i + 1..]);
  }

  /** A directory's blocks split around file `i`. */
  lemma {:induction false} BlocksAround(root: string, files: seq<FileEntry>, i: nat)
    requires i < |files|
    ensures Blocks(root, files) == Blocks(root, files[..i]) + Block(root, files[i]) + Blocks(root, files[i + 1..])
  {
    var f := files[i];
    SplitFiles(files, i);
    assert [f][..0] == [];
    BlocksAppend(root, files[..i] + [f], files[i + 1..]);
    BlocksAppend(root, files[..i], [f]);
    assert Blocks(root, [f]) == Block(root, f);
  }

  /**
    When reading one file fails, the walk carries on: the tree lines are the
    same as if it had been read.
   */
  lemma {:induction false} ReadFailureKeepsTree(rootPath: string, walk: seq<WalkEntry>, j: nat, i: nat, reason: string)
    requires j < |walk| && i < |walk[j].files|
    ensures TreeLines(rootPath, WithFailedRead(walk, j, i, reason)) == TreeLines(rootPath, walk)
  {
    var w' := WithFailedRead(walk, j, i, reason);
    var e, e' := walk[j], w'[j];
    var before, after := walk[..j], walk[j + 1..];
    SplitAt(walk, j);
    SplitAt(w', j);
    assert w'[..j] == before && w'[j + 1..] == after;
    var level := Level(rootPath, e.root);
    assert FileLines(level, e'.files) == FileLines(level, e.files);
    assert EntryTreeLines(rootPath, e') == EntryTreeLines(rootPath, e);
    assert [e][..0] == [] && [e'][..0] == [];
    TreeLinesAppend(rootPath, before + [e], after);
    TreeLinesAppend(rootPath, before, [e]);
    TreeLinesAppend(rootPath, before + [e'], after);
    TreeLinesAppend(rootPath, before, [e']);
  }

  /**
    When reading one file fails, the content lines differ only in that
    file's content entry, which becomes the placeholder naming the failure;
    the four-entry shape of every block is unchanged.
   */
  lemma {:induction false} ReadFailureIsLocal(walk: seq<WalkEntry>, j: nat, i: nat, reason: string)
    requires j < |walk| && i < |walk[j].files|
    ensures var k := FileCount(walk[..j]) + i;
      && 4 * k + 3 < |ContentLines(walk)|
      && ContentLines(WithFailedRead(walk, j, i, reason))
         == ContentLines(walk)[4 * k + 3 := "[Could not read file: " + reason + "]"]
  {
    var placeholder := "[Could not read file: " + reason + "]";
    var x, y := ContentLines(walk), ContentLines(WithFailedRead(walk, j, i, reason));
    var k := FileCount(walk[..j]) + i;
    var before, after := ContentLinesWithFailedRead(walk, j, i, reason);
    UpdateMiddle(x, y, before, Blocks(walk[j].root, walk[j].files), after, 4 * i + 3, 4 * k + 3, placeholder);
    assert y == x[4 * k + 3 := placeholder];
  }

  /** The content lines of both walks, around entry `j`'s blocks. */
  lemma {:induction false} ContentLinesWithFailedRead(walk: seq<WalkEntry>, j: nat, i: nat, reason: string)
    returns (before: seq<string>, after: seq<string>)
    requires j < |walk| && i < |walk[j].files|
    ensures |before| == 4 * FileCount(walk[..j])
    ensures 4 * i + 3 < |Blocks(walk[j].root, walk[j].files)|
    ensures ContentLines(walk) == before + Blocks(walk[j].root, walk[j].files) + after
    ensures ContentLines(WithFailedRead(walk, j, i, reason))
         == before + Blocks(walk[j].root, walk[j].files)[4 * i + 3 := "[Could not read file: " + reason + "]"] + after
  {
    var e := walk[j];
    var e' := e.(files := e.files[i := e.files[i].(read := ReadFailed(reason))]);
    assert WithFailedRead(walk, j, i, reason) == walk[j := e'];
    before, after := ContentLinesReplace(walk, j, e');
    FailedReadInEntry(e, i, reason);
  }

  /** `FailedReadInBlocks` for the files of one walk entry. */
  lemma {:induction false} FailedReadInEntry(e: WalkEntry, i: nat, reason: string)
    requires i < |e.files|
    ensures 4 * i + 3 < |Blocks(e.root, e.files)|
    ensures var e' := e.(files := e.files[i := e.files[i].(read := ReadFailed(reason))]);
      Blocks(e'.root, e'.files) == Blocks(e.root, e.files)[4 * i + 3 := "[Could not read file: " + reason + "]"]
  {
    FailedReadInBlocks(e.root, e.files, i, reason);
  }

  /**
    Replacing entry `j` by `e'` replaces its blocks and nothing else: the
    content lines before and after them are shared.
   */
  lemma {:induction false} ContentLinesReplace(walk: seq<WalkEntry>, j: nat, e': WalkEntry) returns (before: seq<string>, after: seq<string>)
    requires j < |walk|
    ensures |before| == 4 * FileCount(walk[..j])
    ensures ContentLines(walk) == before + Blocks(walk[j].root, walk[j].files) + after
    ensures ContentLines(walk[j := e']) == before + Blocks(e'.root, e'.files) + after
  {
    var w' := walk[j := e'];
    assert w'[..j] == walk[..j] && w'[j + 1..] == walk[j + 1..] && w'[j] == e';
    ContentLinesAround(walk, j);
    ContentLinesAround(w', j);
    before, after := ContentLines(walk[..j]), ContentLines(walk[j + 1..]);
  }

  /** The content lines split around entry `j`: before it, its blocks, after it. */
  lemma {:induction false} ContentLinesAround(walk: seq<WalkEntry>, j: nat)
    requires j < |walk|
    ensures ContentLines(walk)
         == ContentLines(walk[..j]) + Blocks(walk[j].root, walk[j].files) + ContentLines(walk[j + 1..])
  {
    var e := walk[j];
    SplitAt(walk, j);
    assert [e][..0] == [];
    ContentLinesAppend(walk[..j] + [e], walk[j + 1..]);
    ContentLinesAppend(walk[..j], [e]);
    assert ContentLines([e]) == Blocks(e.root, e.files);
  }

  /** A file list split around its file `i`. */
  lemma {:induction false} SplitFiles(files: seq<FileEntry>, i: nat)
    requires i < |files|
    ensures files == files[..i] + [files[i]] + files[i + 1..]
  {
  }

  // ---------------------------------------------------------------------------
  // The report
  // ---------------------------------------------------------------------------

  /** A directory line holds a newline only if the directory path does. */
  lemma {:induction false} DirLineSingleLine(rootPath: string, root: string)
    requires '\n' !in root
    ensures '\n' !in DirLine(rootPath, root)
  {
    BasenameIsLastSegment(root);
    assert '\n' !in Basename(root);
    assert '\n' !in DirIndent(Level(rootPath, root));
  }

  /** A file line holds a newline only if the file name does. */
  lemma {:induction false} FileLineSingleLine(level: nat, name: string)
    requires '\n' !in name
    ensures '\n' !in FileLine(level, name)
  {
    assert '\n' !in Repeat(Pipe, level);
  }

  /** No line of the tree holds a newline when no path or file name does. */
  lemma {:induction false} TreeLinesSingleLine(rootPath: string, walk: seq<WalkEntry>)
    requires forall j :: 0 <= j < |walk| ==> '\n' !in walk[j].root
    requires forall j, i :: 0 <= j < |walk| && 0 <= i < |walk[j].files| ==> '\n' !in walk[j].files[i].name
    ensures forall l :: 0 <= l < |TreeLines(rootPath, walk)| ==> '\n' !in TreeLines(rootPath, walk)[l]
  {
    if walk != [] {
      var init, e := walk[..|walk| - 1], walk[|walk| - 1];
      TreeLinesSingleLine(rootPath, init);
      DirLineSingleLine(rootPath, e.root);
      var level := Level(rootPath, e.root);
      var files := FileLines(level, e.files);
      forall i | 0 <= i < |files| ensures '\n' !in files[i] {
        FileLineSingleLine(level, e.files[i].name);
      }
      var lines := EntryTreeLines(rootPath, e);
      assert forall l :: 0 <= l < |lines| ==> '\n' !in lines[l];
      var all := TreeLines(rootPath, init) + lines;
      assert TreeLines(rootPath, walk) == all;
      forall l | 0 <= l < |all| ensures '\n' !in all[l] {
        if l >= |TreeLines(rootPath, init)| {
          assert all[l] == lines[l - |TreeLines(rootPath, init)|];
        }
      }
    }
  }

  /**
    With newline-free names the tree section of the report has exactly one
    text line per directory and per file: it holds one newline fewer than
    the walk has entries and files.
   */
  lemma {:induction false} TreeSectionLineCount(rootPath: string, walk: seq<WalkEntry>)
    requires walk != []
    requires forall j :: 0 <= j < |walk| ==> '\n' !in walk[j].root
    requires forall j, i :: 0 <= j < |walk| && 0 <= i < |walk[j].files| ==> '\n' !in walk[j].files[i].name
    ensures Count(Join("\n", TreeLines(rootPath, walk)), '\n') == |walk| + FileCount(walk) - 1
  {
    TreeLinesSingleLine(rootPath, walk);
    JoinSeparatorCount('\n', TreeLines(rootPath, walk));
  }

  /** A walk without files leaves the contents section of the report empty. */
  lemma {:induction false} ReportWithoutFiles(rootPath: string, walk: seq<WalkEntry>)
    requires FileCount(walk) == 0
    ensures Report(TreeLines(rootPath, walk), ContentLines(walk))
         == "### DIRECTORY TREE ###\n\n" + Join("\n", TreeLines(rootPath, walk)) + "\n\n### FILE CONTENTS ###\n\n"
  {
    assert ContentLines(walk) == [];
  }

  /**
    An empty root directory: the tree has the root's line alone and the
    contents section is empty.
   */
  lemma {:induction false} EmptyRootReport(rootPath: string)
    ensures var walk := [WalkEntry(rootPath, [])];
      Report(TreeLines(rootPath, walk), ContentLines(walk))
      == "### DIRECTORY TREE ###\n\n" + Basename(rootPath) + "/" + "\n\n### FILE CONTENTS ###\n\n"
  {
    var walk := [WalkEntry(rootPath, [])];
    LevelOfRoot(rootPath);
    assert walk[..0] == [];
    assert TreeLines(rootPath, walk) == [DirLine(rootPath, rootPath)];
    RootLine(rootPath, rootPath);
    ReportWithoutFiles(rootPath, walk);
  }

  /** Level and line of the directory `r/a` below the root `r`. */
  lemma {:induction false} ScenarioSubdirectory()
    ensures Level("r", "r/a") == 1
    ensures DirLine("r", "r/a") == "├── a/"
  {
    assert "r/a" == "r" + "/a";
    forall i ensures !OccursAt("/a", "r", i) {
      if 0 <= i && i + 1 <= 2 {
        assert "/a"[i .. i + 1] == ["/a"[i]];
      }
    }
    LevelBelowRoot("r", "/a");
    assert Count("/a", Sep) == 1 + Count("a", Sep);
    assert "r/a"[..2] == "r/";
    assert Basename("r/a") == Basename("r/") + ['a'];
    assert DirIndent(1) == Branch;
  }

  /** A root `r` with one sub-directory `a` holding `x.txt` that reads "hello". */
  const OneFileWalk: seq<WalkEntry> :=
    [WalkEntry("r", []), WalkEntry("r/a", [FileEntry("x.txt", Read("hello"))])]

  /** The root directory `r` of the example, without files, has the line "r/". */
  lemma {:induction false} ScenarioRootEntry()
    ensures EntryTreeLines("r", WalkEntry("r", [])) == ["r/"]
  {
    LevelOfRoot("r");
    assert Basename("r") == "r";
    assert DirLine("r", "r") == "r/";
    assert FileLines(0, []) == [];
  }

  /** The sub-directory `r/a` with its one file `x.txt` has two lines. */
  lemma {:induction false} ScenarioSubdirectoryEntry()
    ensures EntryTreeLines("r", WalkEntry("r/a", [FileEntry("x.txt", Read("hello"))]))
         == ["├── a/", "│   ├── x.txt"]
  {
    var files := [FileEntry("x.txt", Read("hello"))];
    ScenarioSubdirectory();
    assert files[..0] == [];
    assert FileLines(1, files) == [FileLine(1, "x.txt")];
    assert FileIndent(1) == Pipe + Branch;
    assert FileLine(1, "x.txt") == "│   ├── x.txt";
  }

  /** The example's tree: two directory lines, then the file line one unit deeper. */
  lemma {:induction false} OneFileTree()
    ensures TreeLines("r", OneFileWalk) == ["r/", "├── a/", "│   ├── x.txt"]
  {
    var e0, e1 := OneFileWalk[0], OneFileWalk[1];
    ScenarioRootEntry();
    ScenarioSubdirectoryEntry();
    assert OneFileWalk[..1] == [e0];
    assert [e0][..0] == [];
    assert TreeLines("r", [e0]) == EntryTreeLines("r", e0);
    assert TreeLines("r", OneFileWalk) == TreeLines("r", [e0]) + EntryTreeLines("r", e1);
  }

  /** The example's contents: one block, banner path `r/a/x.txt`, content "hello". */
  lemma {:induction false} OneFileContents()
    ensures ContentLines(OneFileWalk) == ["\n" + Rule, "FILE: r/a/x.txt", Rule + "\n", "hello"]
  {
    var e0, e1 := OneFileWalk[0], OneFileWalk[1];
    assert OneFileWalk[..1] == [e0];
    assert [e0][..0] == [];
    assert ContentLines([e0]) == [];
    assert PathJoin("r/a", "x.txt") == "r/a/x.txt";
    assert e1.files[..0] == [];
    assert Blocks("r/a", e1.files) == Block("r/a", e1.files[0]);
    assert e1.files[0] == FileEntry("x.txt", Read("hello"));
    assert ContentOf(Read("hello")) == "hello";
    assert "FILE: " + "r/a/x.txt" == "FILE: r/a/x.txt";
    assert Block("r/a", e1.files[0]) == ["\n" + Rule, "FILE: r/a/x.txt", Rule + "\n", "hello"];
    assert ContentLines(OneFileWalk) == ContentLines([e0]) + Blocks("r/a", e1.files);
  }
}
