# lint_it_all: the delimited-block merge

lint_it_all bootstraps a repository with shared lint and format
configuration. Most files are copied verbatim. Three destination files
(`.gitignore`, `BUILD`, `MODULE.bazel`) are instead merged: the tool owns a
block of lines between a BEGIN marker line and an END marker line and
rewrites only that block. This project models that merge
(`update_from_template` in `tools/init_repo.py`) and the loop of
`init_repo` that applies it to each append path, and proves what it does.

Files and modules:

- `options.dfy`, module `Options`: the `Option` type, for a marker index
  that may be absent and a file that may not exist.
- `text_lines.dfy`, module `TextLines`: lines as `seq<string>` (what
  `readlines` returns), where a marker line is repeated or located; the
  text `writelines` produces (`Join`) and the lines `readlines` reads back
  from it (`ReadLines`); and Python's `str.strip()` with the whitespace set
  of `str.isspace`.
- `delimited_block.dfy`, module `DelimitedBlock`: the two marker constants;
  the top-to-bottom marker scan as a function (`ScanOf`) and as the loop
  method the source runs (`ScanMarkers`); the three-way classification
  (no block, paired, malformed); the merge on line sequences (`Merge`); and
  the lemmas about it.
- `append_pass.dfy`, module `AppendPass`: one call of `update_from_template`
  with file existence made explicit (`UpdateFile`, and the imperative
  `MergeLines` that grows the line list the way the source does), and the
  class `Workspace`, whose `files` map from relative path to lines is
  rewritten in place by `UpdateFromTemplate`, `UpdateAll` and `InitRepo`.

The destination file system is the `files` map; a path not in the map is a
file that does not exist. The template tree is a read-only map of the same
kind. A status value replaces each printed status line: `Written`,
`NotWritten(DuplicateDelimiters)`, `NotWritten(MismatchedDelimiters)`, or
`TemplateMissing`. `TemplateMissing` stands for the `FileNotFoundError`
that opening a missing template raises. The template is opened only on
the two branches that write, after the destination has been created, and
the exception ends the whole append loop.

The code does not compare the two marker indices, so a file whose END
marker comes before its BEGIN marker takes the replace branch.
`EndBeforeBeginDuplicates` shows the consequence: the lines from END
through BEGIN are written twice, the file then holds two of each marker,
and every later run skips it.

The merge works on lines, and the file is written as their concatenation
and read back by splitting after each newline. When every line of the
destination and of the template ends in a newline, the merged file
consists of such lines too and reads back as exactly the merged lines
(`MergeKeepsTerminated`), so the line-level results hold of the files.
Otherwise they need not: `UnterminatedBlankLastLine` shows a destination
whose last line is blank and lacks its newline. No separator is added, the
BEGIN marker is written onto that line, and the file read back has an END
marker without a BEGIN, so the next run skips it as mismatched.

## Model

| member | source | states |
|---|---|---|
| DelimitedBlock.ScanOf | tools/init_repo.py:76-92 | the scan's state after any prefix: the recorded marker indices are inside the file |
| DelimitedBlock.ScanOfMeaning | tools/init_repo.py:76-92 | the scan stops early exactly when the BEGIN line or the END line occurs twice; otherwise it records the unique index of each marker present and nothing for a marker absent |
| DelimitedBlock.DuplicateStays | tools/init_repo.py:78-91 | once a prefix holds a duplicate marker the whole scan ends in "duplicate", which is why returning at the first duplicate is sound |
| DelimitedBlock.ScanMarkers | tools/init_repo.py:76-92 | the `for` loop over the lines, which returns at the first second copy of either marker, computes exactly the scan |
| DelimitedBlock.Classify | tools/init_repo.py:94-109 | the branch taken; a paired block's indices are inside the file |
| DelimitedBlock.ClassifyMeaning | tools/init_repo.py:94-109 | no block iff neither marker occurs; duplicate iff a marker repeats; mismatched iff neither repeats and exactly one is present; paired means each marker occurs once, at the recorded index |
| DelimitedBlock.ClassifyPaired | tools/init_repo.py:76-104 | a file with one BEGIN at s and one END at e takes the replace branch with those indices, in either order |
| DelimitedBlock.MergeSkipsRepeatedBegin | tools/init_repo.py:79-84 | a second BEGIN line makes the result "skipped, duplicate", whatever the template; nothing is written |
| DelimitedBlock.MergeSkipsRepeatedEnd | tools/init_repo.py:86-91 | a second END line makes the result "skipped, duplicate", whatever the template; nothing is written |
| DelimitedBlock.MergeSkipsMismatched | tools/init_repo.py:105-109 | exactly one of the two markers present, neither repeated: "skipped, mismatched" |
| DelimitedBlock.MergeSkipsIff | tools/init_repo.py:78-109 | the file is skipped if and only if a marker repeats or only one marker is present |
| DelimitedBlock.MergeAppends | tools/init_repo.py:95-100 | with no marker the result is the old lines, then "\n" exactly when the file is non-empty and its last line is not blank, then BEGIN, the template lines, END; the old lines are a prefix of the result |
| DelimitedBlock.MergeIntoEmpty | tools/init_repo.py:71-100 | a destination created empty ends up as exactly BEGIN, the template lines, END |
| DelimitedBlock.MergeReplaces | tools/init_repo.py:102-104 | with one BEGIN at s and one END at e the result is the lines through BEGIN, the template, the lines from END on; prefix and suffix are kept verbatim, the block between them is exactly the template, and the length is s+1+\|src\|+\|dest\|-e |
| DelimitedBlock.AppendedIsPaired | tools/init_repo.py:95-100 | an appended block from a marker-free template is a well-formed pair, BEGIN before END |
| DelimitedBlock.ReplacedIsPaired | tools/init_repo.py:102-104 | replacing the block of a BEGIN-before-END pair with a marker-free template leaves a BEGIN-before-END pair |
| DelimitedBlock.MergeIdempotentFromNoBlock | tools/init_repo.py:95-104 | from a file without markers, a second merge of the same marker-free template gives the same lines as the first |
| DelimitedBlock.MergeIdempotentFromPaired | tools/init_repo.py:102-104 | from a BEGIN-before-END pair, a second merge of the same marker-free template gives the same lines as the first |
| DelimitedBlock.EndBeforeBeginDuplicates | tools/init_repo.py:102-104 | with END before BEGIN the replace branch still runs, and its result repeats both markers, so any later merge skips the file as duplicate |
| DelimitedBlock.DelimitersAreLines | tools/init_repo.py:29-30 | each marker constant is one complete line: it ends in its newline and holds no other |
| DelimitedBlock.MergeKeepsTerminated | tools/init_repo.py:74-111 | if the destination and the template consist of complete lines, so does the merged result, and reading back the text written gives exactly the merged lines |
| DelimitedBlock.UnterminatedBlankLastLine | tools/init_repo.py:96-100 | the destination `["foo\n", " "]` gets no separator; the text written reads back with `" "` and BEGIN on one line, and the next merge skips that file as mismatched |
| TextLines.ReadJoin | tools/init_repo.py:74 | lines that each end in their only newline, once written one after another, are read back as the same lines |
| TextLines.StripEmptyIffBlank | tools/init_repo.py:96 | `line.strip() == ''` holds exactly when every character of the line is Python whitespace |
| TextLines.RepeatedSnoc | tools/init_repo.py:79-91 | one more scanned line repeats a marker exactly when it is that marker and the marker was already seen |
| AppendPass.UpdateFileMeaning | tools/init_repo.py:70-112 | the file is rewritten exactly when the merge updates it and the template exists, with the merged lines; a skip leaves it as it was and reports the merge's reason; a missing template is reported exactly on the two branches that write |
| AppendPass.MergeLines | tools/init_repo.py:74-111 | the imperative body (scan, then `append`/`extend` onto the line list, or the slice concatenation, or an early return) returns exactly the per-file result |
| AppendPass.Workspace.UpdateFromTemplate | tools/init_repo.py:70-112 | a missing destination is created empty; the destination then holds the per-file result's lines; no other path changes |
| AppendPass.Workspace.UpdateAll | tools/init_repo.py:129-132 | the paths are processed in order, each from its original contents; a skipped file does not stop the loop and only a missing template does, as the last status; paths not reached are unchanged |
| AppendPass.Workspace.InitRepo | tools/init_repo.py:23-27 | the loop over `.gitignore`, `BUILD` and `MODULE.bazel`, in that order, with the per-path results of `UpdateAll`: the paths after a missing template and all files outside that list are unchanged, and when every template exists all three are processed |

## Left out

- The verbatim copy loop of `init_repo` (`COPY_PATHS`, `copytree`, `copyfile`, `mkdir`) and all of `tools/init/init_repo.py`: plain file-system copying with no logic to state.
- The git checks in `main` (`git_is_available`, `in_git_repo`, `git_is_clean`): they call an external program.
- Path resolution (`get_workspace_path`, `get_root_from_this`): they read an environment variable and the Bazel runfiles. The template tree is taken as a parameter instead.
- Argument parsing and the coloured status printing: each printed line is the returned status.
- Bytes, text encoding and newline translation: a file's text is a `string` and `ReadLines` splits it after each `\n`; `\r\n` and `\r` translation by text-mode files is not modelled. The idempotence lemmas are stated on line lists; they carry over to file text when every destination and template line is complete (`MergeKeepsTerminated`), not in general (`UnterminatedBlankLastLine`, and an unterminated last template line, which runs into the END marker).
- Exceptions other than a missing template (permissions, I/O errors), and a crash part-way through a file.
