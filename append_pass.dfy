/**
 The append pass of `init_repo`: each destination file named in the
 append list is merged with the template file of the same relative path.
 The destination workspace is a map from relative path to the file's
 lines; the template tree is a map of the same kind, read only.
 */
module AppendPass {
  import opened Options
  import opened TextLines
  import opened DelimitedBlock

  /** The destination files that receive a delimited block, in processing order. */
  const AppendPaths: seq<string> := [".gitignore", "BUILD", "MODULE.bazel"]

  /**
   What the pass reports for one path: the block was written, the file was
   skipped for its markers, or the template file could not be opened (an
   exception that ends the whole pass).
   */
  datatype Status = Written | NotWritten(reason: SkipReason) | TemplateMissing

  /** The destination's lines after one update, and the status reported. */
  datatype FileResult = FileResult(lines: seq<string>, status: Status)

  function Lookup(files: map<string, seq<string>>, path: string): Option<seq<string>>
  {
    if path in files then Some(files[path]) else None
  }

  /** A destination that does not exist is first created empty. */
  function Touched(dest: Option<seq<string>>): seq<string>
  {
    match dest
    case None => []
    case Some(lines) => lines
  }

  /**
   One call of `update_from_template` on a destination file that exists
   (possibly just created empty) and holds `dest`; `src` is the template
   file, if it exists. The template is read only on the two branches that
   write, so a missing template goes unnoticed when the file is skipped.
   */
  function UpdateFile(dest: seq<string>, src: Option<seq<string>>): FileResult
  {
    match Classify(dest)
    case Malformed(reason) => FileResult(dest, NotWritten(reason))
    case _ =>
      if src.None? then FileResult(dest, TemplateMissing)
      else FileResult(Merge(dest, src.value).lines, Written)
  }

  /**
   The file is written exactly when the merge updates it and the template
   exists; a malformed file is skipped for its reason whatever the template;
   a missing template is noticed only on the two branches that write.
   */
  lemma UpdateFileMeaning(dest: seq<string>, src: Option<seq<string>>)
    ensures var r := UpdateFile(dest, src);
            && (r.status != Written ==> r.lines == dest)
            && (r.status == Written <==> src.Some? && Merge(dest, src.value).Updated?)
            && (r.status == Written ==> r.lines == Merge(dest, src.value).lines)
            && (r.status.NotWritten? <==> Classify(dest).Malformed?)
            && (r.status.NotWritten? ==> r.status.reason == Classify(dest).reason)
            && (r.status == TemplateMissing <==> src.None? && !Classify(dest).Malformed?)
  {
  }

  /**
   The body of `update_from_template` between reading the destination
   lines and writing them back: scan, then append, replace or skip.
   */
  method MergeLines(dest: seq<string>, src: Option<seq<string>>) returns (r: FileResult)
    ensures r == UpdateFile(dest, src)
  {
    var lines := dest;
    var scan := ScanMarkers(lines);
    match scan {
      case Duplicate =>
        return FileResult(dest, NotWritten(DuplicateDelimiters));
      case Markers(None, None) =>
        if |lines| > 0 && Strip(lines[|lines| - 1]) != "" {
          lines := lines + ["\n"];
        }
        lines := lines + [BeginDelimiter];
        if src.None? {
          return FileResult(dest, TemplateMissing);
        }
        lines := lines + src.value;
        lines := lines + [EndDelimiter];
        assert lines == dest + Separator(dest) + [BeginDelimiter] + src.value + [EndDelimiter];
      case Markers(Some(s), Some(e)) =>
        if src.None? {
          return FileResult(dest, TemplateMissing);
        }
        lines := lines[..s + 1] + src.value + lines[e..];
      case Markers(_, _) =>
        return FileResult(dest, NotWritten(MismatchedDelimiters));
    }
    r := FileResult(lines, Written);
  }

  ghost predicate Distinct(paths: seq<string>)
  {
    forall i, j :: 0 <= i < j < |paths| ==> paths[i] != paths[j]
  }

  /** What one update of each path, from the files as they were at the start, produces. */
  ghost function Expected(start: map<string, seq<string>>, template: map<string, seq<string>>, paths: seq<string>)
    : seq<FileResult>
  {
    seq(|paths|, k requires 0 <= k < |paths| =>
      UpdateFile(Touched(Lookup(start, paths[k])), Lookup(template, paths[k])))
  }

  /** One more path of the append loop done: its file holds its expected result, all else is kept. */
  lemma ProgressStep(
    start: map<string, seq<string>>, before: map<string, seq<string>>, after: map<string, seq<string>>,
    paths: seq<string>, i: nat, statuses: seq<Status>, status: Status, expected: seq<FileResult>)
    requires Distinct(paths) && i < |paths| == |expected| && |statuses| == i
    requires forall k :: 0 <= k < i ==>
               statuses[k] == expected[k].status && Lookup(before, paths[k]) == Some(expected[k].lines)
    requires forall q :: q !in paths[..i] ==> Lookup(before, q) == Lookup(start, q)
    requires after == before[paths[i] := expected[i].lines] && status == expected[i].status
    ensures forall k :: 0 <= k < i + 1 ==>
              (statuses + [status])[k] == expected[k].status && Lookup(after, paths[k]) == Some(expected[k].lines)
    ensures forall q :: q !in paths[..i + 1] ==> Lookup(after, q) == Lookup(start, q)
  {
    assert paths[..i + 1] == paths[..i] + [paths[i]];
    forall k | 0 <= k < i ensures Lookup(after, paths[k]) == Lookup(before, paths[k]) {
      assert paths[k] != paths[i];
    }
  }

  /** The destination workspace, whose files the pass rewrites in place. */
  class Workspace {
    var files: map<string, seq<string>>

    constructor (files: map<string, seq<string>>)
      ensures this.files == files
    {
      this.files := files;
    }

    /**
     `update_from_template` on the file at `name`, given the template file
     `src`, if it exists: the file is created if missing, and rewritten only
     when the block is written.
     */
    method UpdateFromTemplate(src: Option<seq<string>>, name: string) returns (status: Status)
      modifies this
      ensures var r := UpdateFile(Touched(Lookup(old(files), name)), src);
              files == old(files)[name := r.lines] && status == r.status
    {
      if name !in files {
        files := files[name := []];
      }
      var r := MergeLines(files[name], src);
      if r.status == Written {
        files := files[name := r.lines];
      } else {
        UpdateFileMeaning(files[name], src);
      }
      status := r.status;
    }

    /**
     The append loop over `paths`, in order: each path is updated from its
     own original contents; a skipped file does not stop the loop, a missing
     template does (after that path); paths not reached are untouched.
     */
    method UpdateAll(template: map<string, seq<string>>, paths: seq<string>) returns (statuses: seq<Status>)
      requires Distinct(paths)
      modifies this
      ensures |statuses| <= |paths|
      ensures forall k :: 0 <= k < |statuses| ==>
                var r := UpdateFile(Touched(Lookup(old(files), paths[k])), Lookup(template, paths[k]));
                statuses[k] == r.status && Lookup(files, paths[k]) == Some(r.lines)
      ensures forall k :: 0 <= k < |statuses| - 1 ==> statuses[k] != TemplateMissing
      ensures |statuses| < |paths| ==> |statuses| > 0 && statuses[|statuses| - 1] == TemplateMissing
      ensures forall q :: q !in paths[..|statuses|] ==> Lookup(files, q) == Lookup(old(files), q)
    {
      ghost var start := files;
      ghost var expected := Expected(start, template, paths);
      statuses := [];
      for i := 0 to |paths|
        invariant |statuses| == i
        invariant forall k :: 0 <= k < i ==>
                    statuses[k] == expected[k].status && Lookup(files, paths[k]) == Some(expected[k].lines)
        invariant forall k :: 0 <= k < i ==> statuses[k] != TemplateMissing
        invariant forall q :: q !in paths[..i] ==> Lookup(files, q) == Lookup(old(files), q)
      {
        var p := paths[i];
        ghost var before := files;
        assert expected[i] == UpdateFile(Touched(Lookup(files, p)), Lookup(template, p));
        var status := UpdateFromTemplate(Lookup(template, p), p);
        ProgressStep(start, before, files, paths, i, statuses, status, expected);
        statuses := statuses + [status];
        if status == TemplateMissing {
          return;
        }
      }
      assert paths[..|paths|] == paths;
    }

    /** The append loop of `init_repo` over the fixed append paths. */
    method InitRepo(template: map<string, seq<string>>) returns (statuses: seq<Status>)
      modifies this
      ensures |statuses| <= |AppendPaths|
      ensures forall k :: 0 <= k < |statuses| ==>
                var r := UpdateFile(Touched(Lookup(old(files), AppendPaths[k])), Lookup(template, AppendPaths[k]));
                statuses[k] == r.status && Lookup(files, AppendPaths[k]) == Some(r.lines)
      ensures forall k :: 0 <= k < |statuses| - 1 ==> statuses[k] != TemplateMissing
      ensures |statuses| < |AppendPaths| ==> |statuses| > 0 && statuses[|statuses| - 1] == TemplateMissing
      ensures forall q :: q !in AppendPaths[..|statuses|] ==> Lookup(files, q) == Lookup(old(files), q)
      ensures forall q :: q !in AppendPaths ==> Lookup(files, q) == Lookup(old(files), q)
      ensures (forall p :: p in AppendPaths ==> p in template) ==> |statuses| == |AppendPaths|
    {
      statuses := UpdateAll(template, AppendPaths);
      var n := |statuses|;
      assert forall q :: q in AppendPaths[..n] ==> q in AppendPaths;
      if n < |AppendPaths| && AppendPaths[n - 1] in template {
        UpdateFileMeaning(Touched(Lookup(old(files), AppendPaths[n - 1])), Lookup(template, AppendPaths[n - 1]));
      }
    }
  }
}
