/**
 * The makefile as text. cdtgch.rb reads it with `IO.readlines` and `chomp!`
 * (lines 35-36) and, when `rewrite_makefile` is set, writes the edited lines
 * back joined by newlines (lines 93-97). Joining and reading back give the
 * same lines, except that a last empty line is lost, as `readlines` sees no
 * line after the final newline; so a second run on the file the script wrote
 * finds nothing to do and leaves the file alone.
 */
module MakefileText {
  import opened Wrappers
  import opened Lines
  import opened Options
  import opened Makefile
  import opened MakefileLemmas

  const NEWLINE: char := '\n'

  /** The index of the first newline in s, if any. */
  function FirstNewline(s: string): (r: Option<nat>)
    ensures r.Some? ==> r.value < |s| && s[r.value] == NEWLINE && NEWLINE !in s[..r.value]
    ensures r.None? <==> NEWLINE !in s
  {
    if s == [] then None
    else if s[0] == NEWLINE then Some(0)
    else
      match FirstNewline(s[1..])
      case None => None
      case Some(i) =>
        assert s[..i + 1] == [s[0]] + s[1..][..i];
        Some(i + 1)
  }

  /** `IO.readlines` followed by `chomp!` on every line: the text cut at each newline, the newlines dropped. */
  function ReadLines(text: string): seq<string>
    decreases |text|
  {
    if text == [] then []
    else
      match FirstNewline(text)
      case None => [text]
      case Some(k) => [text[..k]] + ReadLines(text[k + 1..])
  }

  /** Every line read holds no newline: `chomp!` leaves none, as the text was cut at each. */
  lemma {:induction false} ReadLinesSingle(text: string)
    ensures SingleLines(ReadLines(text))
    decreases |text|
  {
    if text != [] && FirstNewline(text).Some? {
      var k := FirstNewline(text).value;
      ReadLinesSingle(text[k + 1..]);
      assert NEWLINE !in text[..k];
    }
  }

  /** `makefile_lines.join("\n")`. */
  function JoinLines(ls: seq<string>): string {
    if ls == [] then []
    else if |ls| == 1 then ls[0]
    else ls[0] + [NEWLINE] + JoinLines(ls[1..])
  }

  /** No line holds a newline, as every line `readlines` and `chomp!` produce. */
  predicate SingleLines(ls: seq<string>) {
    forall k :: 0 <= k < |ls| ==> NEWLINE !in ls[k]
  }

  /** The lines with a last empty line dropped: what reading back their joined text gives. */
  function DropFinalBlank(ls: seq<string>): seq<string> {
    if ls != [] && ls[|ls| - 1] == "" then ls[..|ls| - 1] else ls
  }

  /** Reading back joined lines gives the lines, less a last empty one. */
  lemma {:induction false} ReadJoin(ls: seq<string>)
    requires SingleLines(ls)
    ensures ReadLines(JoinLines(ls)) == DropFinalBlank(ls)
  {
    if |ls| == 1 {
      if ls[0] != "" {
        assert FirstNewline(ls[0]) == None;
      }
    } else if |ls| > 1 {
      var rest := ls[1..];
      assert SingleLines(rest) && NEWLINE !in ls[0];
      JoinCons(ls);
      ReadLinesCons(ls[0], JoinLines(rest));
      ReadJoin(rest);
      DropFinalBlankCons(ls);
    }
  }

  lemma JoinCons(ls: seq<string>)
    requires |ls| > 1
    ensures JoinLines(ls) == ls[0] + ([NEWLINE] + JoinLines(ls[1..]))
  {
  }

  lemma DropFinalBlankCons(ls: seq<string>)
    requires |ls| > 1
    ensures DropFinalBlank(ls) == [ls[0]] + DropFinalBlank(ls[1..])
  {
    var rest := ls[1..];
    if rest[|rest| - 1] == "" {
      assert ls[..|ls| - 1] == [ls[0]] + rest[..|rest| - 1];
    } else {
      assert ls == [ls[0]] + rest;
    }
  }

  /** A line followed by a newline reads back as that line, then whatever follows. */
  lemma ReadLinesCons(a: string, b: string)
    requires NEWLINE !in a
    ensures ReadLines(a + ([NEWLINE] + b)) == [a] + ReadLines(b)
  {
    var text := a + ([NEWLINE] + b);
    NewlineAfter(a, b);
    assert text[..|a|] == a && text[|a| + 1..] == b;
  }

  /** In a line followed by a newline, the first newline is the one after the line. */
  lemma NewlineAfter(a: string, b: string)
    requires NEWLINE !in a
    ensures FirstNewline(a + ([NEWLINE] + b)) == Some(|a|)
  {
    var s := a + ([NEWLINE] + b);
    assert s[|a|] == NEWLINE;
    var k := FirstNewline(s).value;
    assert s[..|a|] == a;
    assert k >= |a| && k <= |a|;
  }

  /** What the script writes to the makefile: the joined lines when `rewrite_makefile` is set, and nothing otherwise. */
  function Written(r: Result<Edited, PatchError>): (w: Option<string>)
    ensures w.Some? <==> r.Success? && r.value.rewrite
  {
    if r.Success? && r.value.rewrite then Some(JoinLines(r.value.lines)) else None
  }

  /** The script writes the makefile exactly when it succeeds on a makefile that fails one of its four checks. */
  lemma WrittenIffUnpatched(ls: seq<string>, subdir: seq<string>)
    ensures Written(Patch(ls, subdir)).Some? <==> Patch(ls, subdir).Success? && !Patched(ls)
  {
    if Patch(ls, subdir).Success? {
      PatchOutcome(ls, subdir);
    }
  }

  /** The file the script writes reads back as the edited lines, less a last empty line. */
  lemma WrittenReadsBack(ls: seq<string>, subdir: seq<string>)
    requires SingleLines(ls) && SingleLines(subdir)
    requires Written(Patch(ls, subdir)).Some?
    ensures ReadLines(Written(Patch(ls, subdir)).value) == DropFinalBlank(Patch(ls, subdir).value.lines)
  {
    PatchSingleLines(ls, subdir);
    ReadJoin(Patch(ls, subdir).value.lines);
  }

  /** Every line the script adds is a single line. */
  lemma PatchSingleLines(ls: seq<string>, subdir: seq<string>)
    requires SingleLines(ls) && SingleLines(subdir) && Patch(ls, subdir).Success?
    ensures SingleLines(Patch(ls, subdir).value.lines)
  {
    PatchSteps(ls, subdir);
    var e1 := AddDepLine(ls).value;
    var e2 := AddObjsRule(e1.lines);
    var e3 := AddGchRule(e2.lines, subdir).value;
    DepLineSingle(ls);
    ObjsRuleSingle(e1.lines);
    GchRuleSingle(e2.lines, subdir);
    CleanLineSingle(e3.lines);
  }

  lemma SingleLinesInsert(ls: seq<string>, i: nat, x: string)
    requires SingleLines(ls) && i <= |ls| && NEWLINE !in x
    ensures SingleLines(Insert(ls, i, x))
  {
    var r := Insert(ls, i, x);
    forall k | 0 <= k < |r|
      ensures NEWLINE !in r[k]
    {
      if k > i {
        assert r[k] == ls[k - 1];
      }
    }
  }

  lemma SingleLinesAppend(ls: seq<string>, t: seq<string>)
    requires SingleLines(ls) && SingleLines(t)
    ensures SingleLines(ls + t)
  {
    var r := ls + t;
    forall k | 0 <= k < |r|
      ensures NEWLINE !in r[k]
    {
      if k >= |ls| {
        assert r[k] == t[k - |ls|];
      }
    }
  }

  lemma DepLineSingle(ls: seq<string>)
    requires SingleLines(ls) && AddDepLine(ls).Success?
    ensures SingleLines(AddDepLine(ls).value.lines)
  {
    if AddDepLine(ls).value.rewrite {
      AddedTextsSingle();
      SingleLinesInsert(ls, Find(ls, Equal(OBJECTS_INCLUDE)).value + 1, DEP_LINE);
    }
  }

  lemma ObjsRuleSingle(ls: seq<string>)
    requires SingleLines(ls)
    ensures SingleLines(AddObjsRule(ls).lines)
  {
    if AddObjsRule(ls).rewrite {
      AddedTextsSingle();
      var t := ["", GCH_O_RULE, ""];
      assert SingleLines(t);
      SingleLinesAppend(ls, t);
    }
  }

  lemma GchRuleSingle(ls: seq<string>, subdir: seq<string>)
    requires SingleLines(ls) && SingleLines(subdir) && AddGchRule(ls, subdir).Success?
    ensures SingleLines(AddGchRule(ls, subdir).value.lines)
  {
    if AddGchRule(ls, subdir).value.rewrite {
      AddedTextsSingle();
      var k := Find(subdir, Prefix(GPP)).value;
      CommandSingle(subdir[k]);
      var t := ["", GCH_RULE, RewriteCommand(subdir[k])];
      assert SingleLines(t);
      SingleLinesAppend(ls, t);
    }
  }

  lemma CleanLineSingle(ls: seq<string>)
    requires SingleLines(ls) && AddCleanLine(ls).Success?
    ensures SingleLines(AddCleanLine(ls).value.lines)
  {
    if AddCleanLine(ls).value.rewrite {
      AddedTextsSingle();
      SingleLinesInsert(ls, Find(ls, Prefix(CLEAN)).value + 1, CLEAN_LINE);
    }
  }

  lemma AddedTextsSingle()
    ensures NEWLINE !in DEP_LINE && NEWLINE !in GCH_O_RULE && NEWLINE !in GCH_RULE && NEWLINE !in CLEAN_LINE
  {
    assert NEWLINE !in PCH;
    assert NEWLINE !in GCH;
    assert NEWLINE !in GCH_DEPS;
  }

  /** The g++ command keeps to one line once its options are rewritten. */
  lemma CommandSingle(cmd: string)
    requires NEWLINE !in cmd
    ensures NEWLINE !in RewriteCommand(cmd)
  {
    assert NEWLINE !in GCH_DEPS by { AddedTextsSingle(); }
    OptionsSingle(cmd, "-MF", GCH_DEPS);
    OptionsSingle(RewriteOption(cmd, "-MF", GCH_DEPS), "-MT", GCH_DEPS);
  }

  lemma {:induction false} OptionsSingle(s: string, opt: string, value: string)
    requires NEWLINE !in s && NEWLINE !in opt && NEWLINE !in value
    ensures NEWLINE !in RewriteOption(s, opt, value)
    decreases |s|
  {
    if s != [] {
      if HasPrefix(s, opt + [QUOTE]) && CloseQuote(s[|opt| + 1..]).Some? {
        var close := |opt| + 1 + CloseQuote(s[|opt| + 1..]).value;
        OptionsSingle(s[close + 1..], opt, value);
      } else {
        OptionsSingle(s[1..], opt, value);
      }
    }
  }

  /** Dropping a last empty line keeps all four checks passing: none of them looks at an empty line. */
  lemma PatchedDropBlank(ls: seq<string>)
    requires Patched(ls)
    ensures Patched(DropFinalBlank(ls))
  {
    if ls != [] && ls[|ls| - 1] == "" {
      var front := ls[..|ls| - 1];
      assert ls == front + [""];
      AddedLinesNotClean();
      AddedLinesNotGchRule();
      CleanLineMentionsHeader();
      assert !Matches("", Equal(OBJECTS_INCLUDE));
      FindAppend(front, [""], Equal(OBJECTS_INCLUDE));
      FindAppend(front, [""], Prefix(CLEAN));
      AnyAppend(front, [""], Prefix(GCH_RULE));
      AnyOfLines([""], Equal(OBJECTS_INCLUDE));
      AnyOfLines([""], Prefix(CLEAN));
      AnyOfLines([""], Prefix(GCH_RULE));
      var j := Find(ls, Prefix(CLEAN)).value;
      assert Contains(ls[j + 1], GCH);
      assert ls[j + 1] != "";
      assert DEP_LINE != "";
      var k :| 0 <= k < |ls| && ls[k] == GCH_O_RULE;
      assert GCH_O_RULE != "";
      assert front[k] == GCH_O_RULE;
    }
  }

  /**
   * "Only rewrite it if necessary": when the script has written the makefile,
   * a second run on the file it wrote edits nothing, so it writes nothing;
   * that run does not consult subdir.mk.
   */
  lemma RerunWritesNothing(ls: seq<string>, subdir: seq<string>, subdir': seq<string>)
    requires SingleLines(ls) && SingleLines(subdir)
    requires Written(Patch(ls, subdir)).Some?
    ensures Patch(ReadLines(Written(Patch(ls, subdir)).value), subdir') == Success(Edited(ReadLines(Written(Patch(ls, subdir)).value), false))
    ensures Written(Patch(ReadLines(Written(Patch(ls, subdir)).value), subdir')) == None
  {
    var out := Patch(ls, subdir).value.lines;
    PatchOutcome(ls, subdir);
    PatchSingleLines(ls, subdir);
    ReadJoin(out);
    PatchedDropBlank(out);
    PatchedUnchanged(DropFinalBlank(out), subdir');
  }
}
