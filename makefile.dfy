/**
 * cdtgch.rb: patches the makefile Eclipse CDT generates so that the project
 * builds and uses a precompiled header. The makefile and subdir.mk are taken
 * as lists of lines; the script makes four guarded edits, each an insertion
 * or an append, raises when a line it anchors on is missing, and reports in
 * `rewrite` whether anything changed, which decides whether the makefile is
 * written back.
 */
module Makefile {
  import opened Wrappers
  import opened Lines
  import opened Options

  // The header to precompile, and the texts the script builds from it.
  const PCH: string := "src/stdafx.h"
  const GCH: string := PCH + ".gch"
  const GCH_DEPS: string := GCH + ".d"
  const DEP_LINE: string := "CPP_DEPS += " + GCH_DEPS
  const OBJECTS_INCLUDE: string := "-include objects.mk"
  const GCH_O_RULE: string := "$(OBJS):%.o:../" + GCH
  const GCH_RULE: string := "../" + GCH + ": ../" + PCH + " ../.cproject ../.project"
  const GPP: string := "\tg++"
  const CLEAN: string := "clean:"
  const CLEAN_LINE: string := "\trm -f " + GCH_DEPS + " ../" + GCH

  /** The three `raise`s of the script. */
  datatype PatchError =
    | NoObjectsInclude // "cannot find subdir.mk include line"
    | NoGppCommand     // "cannot find g++ command in subdir.mk"
    | NoCleanRule      // "couldn't find clean: line in makefile"

  /** The patched lines, and `rewrite_makefile`: whether the makefile is to be written back. */
  datatype Edited = Edited(lines: seq<string>, rewrite: bool)

  /** The line after the first `-include objects.mk` is the dependency line for the header. */
  ghost predicate DepGuard(ls: seq<string>) {
    match Find(ls, Equal(OBJECTS_INCLUDE))
    case None => false
    case Some(i) => i + 1 < |ls| && ls[i + 1] == DEP_LINE
  }

  /** The rule making every object depend on the header is present. */
  ghost predicate ObjsGuard(ls: seq<string>) {
    GCH_O_RULE in ls
  }

  /** Some line starts with the rule that builds the header. */
  ghost predicate GchGuard(ls: seq<string>) {
    Any(ls, Prefix(GCH_RULE))
  }

  /** The line after the first `clean:` line mentions the precompiled header. */
  ghost predicate CleanGuard(ls: seq<string>) {
    match Find(ls, Prefix(CLEAN))
    case None => false
    case Some(j) => j + 1 < |ls| && Contains(ls[j + 1], GCH)
  }

  /** What the script checks before each edit; a makefile passing all four checks needs no edit. */
  ghost predicate Patched(ls: seq<string>) {
    DepGuard(ls) && ObjsGuard(ls) && GchGuard(ls) && CleanGuard(ls)
  }

  /** The g++ command copied into the rule: both dependency options now name the header's dependency file. */
  function RewriteCommand(cmd: string): string {
    RewriteOption(RewriteOption(cmd, "-MF", GCH_DEPS), "-MT", GCH_DEPS)
  }

  /** Lines 40-46: the dependency line goes right after the first `-include objects.mk`, unless already there. */
  function AddDepLine(ls: seq<string>): Result<Edited, PatchError> {
    match Find(ls, Equal(OBJECTS_INCLUDE))
    case None => Failure(NoObjectsInclude)
    case Some(i) =>
      if i + 1 < |ls| && ls[i + 1] == DEP_LINE then Success(Edited(ls, false))
      else Success(Edited(Insert(ls, i + 1, DEP_LINE), true))
  }

  /** Lines 50-57: the objects rule is appended between blank lines unless some line equals it. */
  function AddObjsRule(ls: seq<string>): Edited {
    if GCH_O_RULE in ls then Edited(ls, false)
    else Edited(ls + ["", GCH_O_RULE, ""], true)
  }

  /**
   * Lines 64-81: unless some line starts with the header's rule, the rule is
   * appended after a blank line, with the first g++ command of subdir.mk,
   * rewritten, as its recipe.
   */
  function AddGchRule(ls: seq<string>, subdir: seq<string>): Result<Edited, PatchError> {
    if Any(ls, Prefix(GCH_RULE)) then Success(Edited(ls, false))
    else
      match Find(subdir, Prefix(GPP))
      case None => Failure(NoGppCommand)
      case Some(k) => Success(Edited(ls + ["", GCH_RULE, RewriteCommand(subdir[k])], true))
  }

  /** Lines 84-90: the removal command goes right after the first `clean:` line, unless that next line mentions the header. */
  function AddCleanLine(ls: seq<string>): Result<Edited, PatchError> {
    match Find(ls, Prefix(CLEAN))
    case None => Failure(NoCleanRule)
    case Some(j) =>
      if j + 1 < |ls| && Contains(ls[j + 1], GCH) then Success(Edited(ls, false))
      else Success(Edited(Insert(ls, j + 1, CLEAN_LINE), true))
  }

  /** The four edits in order; the first `raise` ends the script before anything is written. */
  function Patch(ls: seq<string>, subdir: seq<string>): Result<Edited, PatchError> {
    var e1 :- AddDepLine(ls);
    var e2 := AddObjsRule(e1.lines);
    var e3 :- AddGchRule(e2.lines, subdir);
    var e4 :- AddCleanLine(e3.lines);
    Success(Edited(e4.lines, e1.rewrite || e2.rewrite || e3.rewrite || e4.rewrite))
  }

  /**
   * The script itself: `makefile_lines` edited in place and the
   * `rewrite_makefile` flag raised by every edit that fires.
   */
  method PatchMakefile(makefileLines: seq<string>, subdirLines: seq<string>) returns (result: Result<Edited, PatchError>)
    ensures result == Patch(makefileLines, subdirLines)
  {
    var lines := makefileLines;
    var rewrite := false;
    var fired: bool;

    var dep := InsertDepLine(lines);
    if dep.Failure? {
      return Failure(dep.error);
    }
    lines, fired := dep.value.lines, dep.value.rewrite;
    rewrite := rewrite || fired;

    lines, fired := AppendObjsRule(lines);
    rewrite := rewrite || fired;

    var gch := AppendGchRule(lines, subdirLines);
    if gch.Failure? {
      return Failure(gch.error);
    }
    lines, fired := gch.value.lines, gch.value.rewrite;
    rewrite := rewrite || fired;

    var clean := InsertCleanLine(lines);
    if clean.Failure? {
      return Failure(clean.error);
    }
    lines, fired := clean.value.lines, clean.value.rewrite;
    rewrite := rewrite || fired;

    return Success(Edited(lines, rewrite));
  }

  /** Lines 40-46 of the script, on the list of lines. */
  method InsertDepLine(makefileLines: seq<string>) returns (result: Result<Edited, PatchError>)
    ensures result == AddDepLine(makefileLines)
  {
    var lines := makefileLines;
    var objectsLine := Find(lines, Equal(OBJECTS_INCLUDE));
    if objectsLine.None? {
      return Failure(NoObjectsInclude);
    }
    var i := objectsLine.value;
    var rewrite := false;
    if !(i + 1 < |lines| && lines[i + 1] == DEP_LINE) {
      lines := Insert(lines, i + 1, DEP_LINE);
      rewrite := true;
    }
    return Success(Edited(lines, rewrite));
  }

  /** Lines 50-57 of the script: three `<<` appends when the rule is missing. */
  method AppendObjsRule(makefileLines: seq<string>) returns (lines: seq<string>, rewrite: bool)
    ensures Edited(lines, rewrite) == AddObjsRule(makefileLines)
  {
    lines := makefileLines;
    rewrite := false;
    if GCH_O_RULE !in lines {
      lines := lines + [""];
      lines := lines + [GCH_O_RULE];
      lines := lines + [""];
      rewrite := true;
    }
    assert rewrite ==> lines == makefileLines + ["", GCH_O_RULE, ""];
  }

  /** Lines 64-81 of the script: the command is looked up in subdir.mk only when the rule is missing. */
  method AppendGchRule(makefileLines: seq<string>, subdirLines: seq<string>) returns (result: Result<Edited, PatchError>)
    ensures result == AddGchRule(makefileLines, subdirLines)
  {
    var lines := makefileLines;
    if Any(lines, Prefix(GCH_RULE)) {
      return Success(Edited(lines, false));
    }
    var gppLine := Find(subdirLines, Prefix(GPP));
    if gppLine.None? {
      return Failure(NoGppCommand);
    }
    var cmd := subdirLines[gppLine.value];
    cmd := RewriteOption(cmd, "-MF", GCH_DEPS);
    cmd := RewriteOption(cmd, "-MT", GCH_DEPS);
    lines := lines + [""];
    lines := lines + [GCH_RULE];
    lines := lines + [cmd];
    assert lines == makefileLines + ["", GCH_RULE, RewriteCommand(subdirLines[gppLine.value])];
    return Success(Edited(lines, true));
  }

  /** Lines 84-90 of the script, on the list of lines. */
  method InsertCleanLine(makefileLines: seq<string>) returns (result: Result<Edited, PatchError>)
    ensures result == AddCleanLine(makefileLines)
  {
    var lines := makefileLines;
    var cleanLine := Find(lines, Prefix(CLEAN));
    if cleanLine.None? {
      return Failure(NoCleanRule);
    }
    var j := cleanLine.value;
    var rewrite := false;
    if !(j + 1 < |lines| && Contains(lines[j + 1], GCH)) {
      lines := Insert(lines, j + 1, CLEAN_LINE);
      rewrite := true;
    }
    return Success(Edited(lines, rewrite));
  }
}
