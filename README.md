# Folder tree and contents dump, modelled in Dafny

`generate_tree_and_contents(root_path, output_file)` walks a directory and writes a
plain-text report in two parts:

- The directory tree. There is one line per directory, indented by its nesting level and
  ending in `/`. Below it comes one line per file, one level deeper.
- The file contents. Each file gets a four-entry block: a newline followed by a rule of 80
  `=`, the banner `FILE: <os.path.join(root, name)>`, a rule of 80 `=` followed by a newline,
  then the text read from the file. A file
  that cannot be read gets the placeholder `[Could not read file: <error>]` instead.

The two parts are joined with `"\n"` and placed under the headers `### DIRECTORY TREE ###`
and `### FILE CONTENTS ###`.

The model takes the walk as input. This is the sequence of `(root, files)` pairs that
`os.walk` yields, in its order. Each file carries the outcome of reading it: its text, or
the text of the exception raised.

The model has four modules:

- `PyStrings` gives the Python string operations used: `s * n`, `s.replace(pat, '')`,
  `s.count(c)` and `sep.join(parts)`.
- `PosixPath` gives `os.path.basename` and two-argument `os.path.join`, with separator `/`.
- `TreeDump` holds the entities, the specification functions and the imperative
  `GenerateTreeAndContents`. That method builds `tree_lines`, `content_lines` and the report
  text with the same nested loops and appends as the source. It is proved equal to the
  functions `TreeLines`, `ContentLines` and `Report`.
- `TreeDumpProperties` proves what the report promises, stated on those functions:
  - where the line and the block of every file are;
  - that a file's tree line and its content banner agree;
  - that a failed read changes nothing but that file's content entry;
  - the line count of the tree section;
  - the level quirks of the `replace`-based level computation;
  - small worked examples.

`SeqFacts` holds generic sequence lemmas used by the proofs.

## Model

| member | source | states |
|---|---|---|
| TreeDump.GenerateTreeAndContents | folder_file_content_scrap.py:3-36 | The nested loops leave `tree_lines` equal to `TreeLines(root_path, walk)` and `content_lines` equal to `ContentLines(walk)`. The text written is header + tree lines joined by newlines + contents header + content lines joined by newlines. |
| TreeDump.DirIndent | folder_file_content_scrap.py:10 | The directory indent is four characters per level: `level - 1` pipe units plus a branch marker, and "" at level 0. |
| TreeDump.FileIndent | folder_file_content_scrap.py:14 | A file's indent equals the directory indent one level deeper: `4 * level + 4` characters. |
| TreeDump.FileLines | folder_file_content_scrap.py:13-15 | One tree line per file, in the order of `files`; line `i` is the file indent followed by the name of file `i`. |
| TreeDump.EntryTreeLines | folder_file_content_scrap.py:11-15 | Each walk entry contributes exactly one line for the directory plus one per file. |
| TreeDump.TreeLines | folder_file_content_scrap.py:8-15 | The tree has exactly one line per directory visited plus one per file. |
| TreeDump.Block | folder_file_content_scrap.py:26-29 | Every file contributes exactly four content entries. |
| TreeDump.Blocks | folder_file_content_scrap.py:13-29 | A directory with `n` files contributes `4 * n` content entries. |
| TreeDump.BlocksAt | folder_file_content_scrap.py:13-29 | Entries `4i .. 4i+4` of a directory's contents are the block of its `i`-th file. |
| TreeDump.ContentLines | folder_file_content_scrap.py:8-29 | `content_lines` has exactly four entries per file of the whole walk. |
| TreeDump.AppendFileLine | folder_file_content_scrap.py:14-15 | Appending one file's line extends the directory's file lines by that file. |
| TreeDump.AppendBlock | folder_file_content_scrap.py:26-29 | The four appends for one file extend the directory's blocks by that file's block. |
| TreeDump.AppendEntryLines | folder_file_content_scrap.py:8-15 | A directory line followed by its file lines extends the tree by one walk entry. |
| TreeDump.AppendEntryBlocks | folder_file_content_scrap.py:8-29 | A directory's blocks extend the contents by one walk entry. |
| TreeDumpProperties.LevelOfRoot | folder_file_content_scrap.py:9 | The root directory itself is at level 0. |
| TreeDumpProperties.LevelBelowRoot | folder_file_content_scrap.py:9 | Suppose `rest` holds no occurrence of `root_path`. Then the level of `root_path + rest` is the number of separators in `rest`. |
| TreeDumpProperties.LevelRepeatedRootQuirk | folder_file_content_scrap.py:9 | `replace` removes every occurrence of the root path, not only the leading one. So `a/b/c/a/b` under root `a/b` gets level 2, though its relative path `/c/a/b` holds 3 separators. |
| TreeDumpProperties.RepeatedRootRemoved | folder_file_content_scrap.py:9 | Removing `a/b` from `/c/a/b` leaves `/c/`. |
| TreeDumpProperties.TrailingSeparatorQuirk | folder_file_content_scrap.py:9-11 | For the root `d/`, which ends in `/`, the subdirectory `d/x` gets level 0 and the line `x/` with no indent. The root's own line is `/`. |
| TreeDumpProperties.IndentUnits | folder_file_content_scrap.py:10 | A directory indent at level `l` is `l - 1` pipe units followed by one branch unit, unit by unit. |
| TreeDumpProperties.RootLine | folder_file_content_scrap.py:10-11 | A level-0 directory's line is its basename followed by `/`, with no indent. |
| TreeDumpProperties.FileLineUnits | folder_file_content_scrap.py:14-15 | A file line at level `l` is `l` pipe units, a branch unit and then exactly the file name. |
| TreeDumpProperties.BlockShape | folder_file_content_scrap.py:17-29 | A block is `"\n"` + 80 `=`; `FILE: ` + `os.path.join(root, name)`, whose basename is the name when the name has no separator; 80 `=` + `"\n"`; and the text read, or the placeholder when reading failed. |
| TreeDumpProperties.FailedReadKeepsShape | folder_file_content_scrap.py:20-29 | A failed read yields the same first three block entries as a successful one. Only the content entry becomes `[Could not read file: <reason>]`. |
| TreeDumpProperties.FileCountAppend | folder_file_content_scrap.py:8-13 | The file count of a concatenation of walks is the sum of their counts. |
| TreeDumpProperties.TreeLinesAppend | folder_file_content_scrap.py:8-15 | The tree of a concatenated walk is the concatenation of the trees. |
| TreeDumpProperties.ContentLinesAppend | folder_file_content_scrap.py:8-29 | The contents of a concatenated walk are the concatenation of the contents. |
| TreeDumpProperties.BlocksAppend | folder_file_content_scrap.py:13-29 | A directory's blocks distribute over a split of its files. |
| TreeDumpProperties.DirLineAt | folder_file_content_scrap.py:8-11 | Directory `j`'s line sits at index `j + (files of earlier entries)` of `tree_lines`. |
| TreeDumpProperties.FileLineAt | folder_file_content_scrap.py:8-15 | File `i` of entry `j` has its line right after its directory's line and the lines of its `i` predecessors. The line shows the name at the directory's level. |
| TreeDumpProperties.BlockAt | folder_file_content_scrap.py:8-29 | Let `k` be the number of files of earlier entries plus `i`. Then the `k`-th four-entry block of `content_lines` is the block of file `i` of entry `j`. |
| TreeDumpProperties.BannerAt | folder_file_content_scrap.py:17-27 | The banner of the `k`-th block is `FILE: ` + `os.path.join(root, name)` of that file. |
| TreeDumpProperties.FileOfIndex | folder_file_content_scrap.py:8-13 | Conversely, every index `k` below the number of files is the traversal index of some file `i` of some entry `j`. |
| TreeDumpProperties.FileIndexUnique | folder_file_content_scrap.py:8-13 | Distinct files have distinct traversal indices. Together with `FileOfIndex`, file lines and content blocks correspond one to one, in traversal order. |
| TreeDumpProperties.BannerOfFileLine | folder_file_content_scrap.py:13-27 | For every `k` below the number of files, the `k`-th content banner is `FILE: ` + `os.path.join(root, name)` for the file whose line is the `k`-th file line of the tree. |
| TreeDumpProperties.FileLineMatchesBanner | folder_file_content_scrap.py:13-27 | The `k`-th file line of the tree and the `k`-th content banner name the same file. The banner path's basename is the name shown in the tree. |
| TreeDumpProperties.WithFailedRead | folder_file_content_scrap.py:20-24 | Builds the walk in which reading file `i` of entry `j` fails with the given reason. It has as many entries as the original walk. |
| TreeDumpProperties.ReadFailureKeepsTree | folder_file_content_scrap.py:13-24 | A failed read does not change the tree section. |
| TreeDumpProperties.ReadFailureIsLocal | folder_file_content_scrap.py:20-29 | When reading the `k`-th file fails, `content_lines` differ from the successful case only at entry `4k + 3`. That entry becomes the placeholder naming the failure. |
| TreeDumpProperties.TreeLinesSingleLine | folder_file_content_scrap.py:8-15 | No tree line holds a newline when no directory path and no file name does. |
| TreeDumpProperties.TreeSectionLineCount | folder_file_content_scrap.py:34 | Assume no directory path or file name holds a newline. Then the joined tree holds exactly (directories + files - 1) newlines: one text line per tree line. |
| TreeDumpProperties.ReportWithoutFiles | folder_file_content_scrap.py:32-36 | A walk with no files produces a report whose contents section is empty after its header. |
| TreeDumpProperties.EmptyRootReport | folder_file_content_scrap.py:8-36 | An empty root directory produces the root's basename and `/` as the whole tree, followed by an empty contents section. |
| TreeDumpProperties.ScenarioSubdirectory | folder_file_content_scrap.py:9-11 | Directory `r/a` under root `r` is at level 1 and its line is `├── a/`. |
| TreeDumpProperties.OneFileTree | folder_file_content_scrap.py:8-15 | The walk `r` (no files), `r/a` (file `x.txt`) yields the tree `r/`, `├── a/`, `│   ├── x.txt`. |
| TreeDumpProperties.OneFileContents | folder_file_content_scrap.py:13-29 | The same walk yields the single block for `r/a/x.txt` with its text. |
| PosixPath.Basename | folder_file_content_scrap.py:11 | `os.path.basename` returns a separator-free string no longer than its argument. |
| PosixPath.BasenameIsLastSegment | folder_file_content_scrap.py:11 | The basename is a suffix of the path and is either the whole path or preceded by a separator. |
| PosixPath.BasenameOfSuffix | folder_file_content_scrap.py:11 | Conversely, a separator-free suffix after a separator, or after nothing, is the basename. |
| PosixPath.PathJoin | folder_file_content_scrap.py:17 | `os.path.join(a, b)` returns `b` when `b` is absolute and is never shorter than `b`. Otherwise its length is that of `a` plus `b`, plus at most one. |
| PosixPath.PathJoinParts | folder_file_content_scrap.py:17 | For a relative `b` the join is exactly `a + b` or `a + '/' + b`. It is one longer than `a + b`, with the separator added, exactly when `b` is relative and `a` is non-empty and does not end with `/`. It always ends with `b`, and starts with `a` when `b` is relative. |
| PosixPath.BasenameOfJoin | folder_file_content_scrap.py:17 | The basename of `os.path.join(d, name)` is `name` when the name holds no separator. |
| PyStrings.Repeat | folder_file_content_scrap.py:10 | `s * n` has length `n * len(s)` for positive `n` and is empty when `n <= 0`. |
| PyStrings.RepeatUnit | folder_file_content_scrap.py:10-14 | Unit `k` of `s * n` is `s`. |
| PyStrings.RemoveAll | folder_file_content_scrap.py:9 | `s.replace(pat, '')` never grows the string and adds no character. It leaves `s` unchanged for an empty pattern. `RemoveAllLeading` and `RemoveAllMiddle` pin down what is removed. |
| PyStrings.RemoveAllAbsent | folder_file_content_scrap.py:9 | Removing a pattern that does not occur leaves the string unchanged. |
| PyStrings.RemoveAllLeading | folder_file_content_scrap.py:9 | A leading occurrence is removed and the rest is processed the same way. |
| PyStrings.RemoveAllMiddle | folder_file_content_scrap.py:9 | Take an occurrence of `pat` after a prefix `x` in which no occurrence starts. `x` is kept and the occurrence is removed too, not only a leading one; the scan continues after it. |
| PyStrings.Count | folder_file_content_scrap.py:9 | `s.count(c)` is at most `len(s)` and is zero exactly when `c` does not occur. |
| PyStrings.CountConcat | folder_file_content_scrap.py:9 | Counting distributes over concatenation. |
| PyStrings.Join | folder_file_content_scrap.py:34-36 | Joining `[]` gives "", joining one part gives that part, and the result holds only characters of the separator or the parts. |
| PyStrings.JoinAppend | folder_file_content_scrap.py:34-36 | Joining two non-empty lists equals joining their joins with the separator. |
| PyStrings.JoinSeparatorCount | folder_file_content_scrap.py:34 | Joining newline-free parts with `"\n"` yields exactly one newline per gap. |

## Left out

- The directory walk itself (`os.walk`) is not modelled. Its order, the `dirs` list it yields and symbolic-link handling are inputs: the model takes the walk as a sequence of `(root, files)` entries. A root path that does not exist gives the empty walk. `ReportWithoutFiles` covers that walk too: the report is the two headers with the joined tree lines between them and nothing after.
- Opening and reading files is not modelled. UTF-8 decoding with `errors="ignore"` and which exceptions arise are inputs too: each file carries its read outcome, either the text or the exception's message as an opaque string.
- Writing the report to `output_file` is left out, and so is a failure to open it. The method returns the text that the four writes produce, in their order.
- The final `print` and the `input()` of the `__main__` block are console I/O and are left out.
- `os.sep` and `os.path` are fixed to their POSIX behaviour (`/`). Windows paths (`\`, drive letters) are not modelled.
- Only the two-argument form of `os.path.join` is modelled, the only form the source calls.
- Python strings are modelled as sequences of characters; code points outside Dafny's `char` are not distinguished.
