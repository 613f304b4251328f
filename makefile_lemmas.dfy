/**
 * What cdtgch.rb promises about its edits: it raises exactly when an anchor
 * line is missing, it only ever inserts and appends lines, `rewrite_makefile`
 * is set exactly when the makefile changes, and a makefile it has patched
 * passes every one of its checks, so running it again changes nothing.
 */
module MakefileLemmas {
  import opened Wrappers
  import opened Lines
  import opened Options
  import opened Makefile

  // Facts about the texts the script uses: the lines it adds never look like
  // the anchors it searches for afterwards.

  lemma AddedLinesNotGchRule()
    ensures !Matches(DEP_LINE, Prefix(GCH_RULE))
    ensures !Matches("", Prefix(GCH_RULE))
    ensures !Matches(GCH_O_RULE, Prefix(GCH_RULE))
    ensures !Matches(CLEAN_LINE, Prefix(GCH_RULE))
    ensures Matches(GCH_RULE, Prefix(GCH_RULE))
  {
    assert DEP_LINE[0] != GCH_RULE[0];
    assert GCH_O_RULE[0] != GCH_RULE[0];
    assert CLEAN_LINE[0] != GCH_RULE[0];
    assert GCH_RULE[..|GCH_RULE|] == GCH_RULE;
  }

  lemma AddedLinesNotClean()
    ensures !Matches(DEP_LINE, Prefix(CLEAN))
    ensures !Matches("", Prefix(CLEAN))
    ensures !Matches(GCH_O_RULE, Prefix(CLEAN))
    ensures !Matches(GCH_RULE, Prefix(CLEAN))
    ensures !Matches(CLEAN_LINE, Prefix(CLEAN))
    ensures !Matches(OBJECTS_INCLUDE, Prefix(CLEAN))
  {
    assert DEP_LINE[0] != CLEAN[0];
    assert GCH_O_RULE[0] != CLEAN[0];
    assert GCH_RULE[0] != CLEAN[0];
    assert CLEAN_LINE[0] != CLEAN[0];
    assert OBJECTS_INCLUDE[0] != CLEAN[0];
  }

  /** The removal command names the precompiled header, so the clean check passes once it is in place. */
  lemma CleanLineMentionsHeader()
    ensures Contains(CLEAN_LINE, GCH)
    ensures CLEAN_LINE != OBJECTS_INCLUDE
  {
    assert CLEAN_LINE[7..][..|GCH|] == GCH;
    assert CLEAN_LINE[0] != OBJECTS_INCLUDE[0];
  }

  /** The copied command still starts with the g++ call: the rewrite only touches `-M…` options. */
  lemma CommandKeepsStart(line: string)
    requires HasPrefix(line, GPP)
    ensures HasPrefix(RewriteCommand(line), GPP)
  {
    assert line == GPP + line[|GPP|..];
    assert '-' !in GPP;
    RewriteKeeps(GPP, line[|GPP|..], "-MF", GCH_DEPS);
    var once := RewriteOption(line, "-MF", GCH_DEPS);
    assert once == GPP + once[|GPP|..];
    RewriteKeeps(GPP, once[|GPP|..], "-MT", GCH_DEPS);
  }

  /**
   * After both passes, every `-MF"…"` and every `-MT"…"` in the copied
   * command names the header's dependency file: the `-MT` pass keeps what
   * the `-MF` pass set.
   */
  lemma RewriteCommandSetsBoth(cmd: string)
    ensures ValueSetFrom(RewriteCommand(cmd), 0, "-MF", GCH_DEPS)
    ensures ValueSetFrom(RewriteCommand(cmd), 0, "-MT", GCH_DEPS)
  {
    assert QUOTE !in GCH_DEPS && '-' !in GCH_DEPS by {
      assert QUOTE !in PCH && '-' !in PCH;
    }
    assert Plain("-MF", GCH_DEPS) && Plain("-MT", GCH_DEPS);
    var once := RewriteOption(cmd, "-MF", GCH_DEPS);
    RewriteSetsValue(cmd, "-MF", GCH_DEPS);
    RewriteKeepsValues(once, "-MT", "-MF", GCH_DEPS);
    RewriteSetsValue(once, "-MT", GCH_DEPS);
  }

  /** A command starting with g++ does not start with `clean:` or with the header's rule. */
  lemma CommandNotAnchor(line: string)
    requires HasPrefix(line, GPP)
    ensures !Matches(RewriteCommand(line), Prefix(CLEAN))
    ensures !Matches(RewriteCommand(line), Prefix(GCH_RULE))
  {
    CommandKeepsStart(line);
    var cmd := RewriteCommand(line);
    assert cmd[0] == GPP[0];
  }

  // One lemma per edit: what it leaves behind.

  /** The dependency edit leaves the dependency line right after the first `-include objects.mk`, and fires exactly when it was not. */
  lemma DepLineEdit(ls: seq<string>)
    requires AddDepLine(ls).Success?
    ensures var e := AddDepLine(ls).value;
      && DepGuard(e.lines)
      && Subsequence(ls, e.lines)
      && (e.rewrite <==> !DepGuard(ls))
      && (e.rewrite ==> |e.lines| > |ls|)
      && (!e.rewrite ==> e.lines == ls)
  {
    var i := Find(ls, Equal(OBJECTS_INCLUDE)).value;
    var e := AddDepLine(ls).value;
    if e.rewrite {
      assert !Matches(DEP_LINE, Equal(OBJECTS_INCLUDE)) by {
        assert DEP_LINE[0] != OBJECTS_INCLUDE[0];
      }
      FindInsert(ls, i + 1, DEP_LINE, Equal(OBJECTS_INCLUDE), i);
      SubsequenceInsert(ls, i + 1, DEP_LINE);
    } else {
      SubsequenceRefl(ls);
    }
  }

  /** Appending lines keeps the dependency line where it was. */
  lemma DepGuardAppend(ls: seq<string>, t: seq<string>)
    requires DepGuard(ls)
    ensures DepGuard(ls + t)
  {
    FindAppend(ls, t, Equal(OBJECTS_INCLUDE));
  }

  /** Inserting the removal command under `clean:` keeps the dependency line after the include line. */
  lemma DepGuardCleanInsert(ls: seq<string>, j: nat)
    requires DepGuard(ls) && Find(ls, Prefix(CLEAN)) == Some(j)
    ensures DepGuard(Insert(ls, j + 1, CLEAN_LINE))
  {
    var i := Find(ls, Equal(OBJECTS_INCLUDE)).value;
    AddedLinesNotClean();
    CleanLineMentionsHeader();
    assert i != j;
    FindInsert(ls, j + 1, CLEAN_LINE, Equal(OBJECTS_INCLUDE), i);
  }

  /** The objects-rule edit fires exactly when the rule is missing, and leaves it present. */
  lemma ObjsRuleEdit(ls: seq<string>)
    ensures var e := AddObjsRule(ls);
      && ObjsGuard(e.lines)
      && Subsequence(ls, e.lines)
      && (e.rewrite <==> !ObjsGuard(ls))
      && (e.rewrite ==> |e.lines| > |ls|)
      && (!e.rewrite ==> e.lines == ls)
  {
    var e := AddObjsRule(ls);
    if e.rewrite {
      assert e.lines[|ls| + 1] == GCH_O_RULE;
      SubsequenceAppend(ls, ["", GCH_O_RULE, ""]);
    } else {
      SubsequenceRefl(ls);
    }
  }

  /** The header-rule edit, when subdir.mk has a g++ command, fires exactly when no line starts with the rule, and leaves one that does. */
  lemma GchRuleEdit(ls: seq<string>, subdir: seq<string>)
    requires AddGchRule(ls, subdir).Success?
    ensures var e := AddGchRule(ls, subdir).value;
      && GchGuard(e.lines)
      && Subsequence(ls, e.lines)
      && (e.rewrite <==> !GchGuard(ls))
      && (e.rewrite ==> |e.lines| > |ls|)
      && (!e.rewrite ==> e.lines == ls)
      && (e.rewrite ==> exists k :: 0 <= k < |subdir| && e.lines == ls + ["", GCH_RULE, RewriteCommand(subdir[k])] && HasPrefix(subdir[k], GPP))
  {
    var e := AddGchRule(ls, subdir).value;
    if e.rewrite {
      var k := Find(subdir, Prefix(GPP)).value;
      var t := ["", GCH_RULE, RewriteCommand(subdir[k])];
      AddedLinesNotGchRule();
      AnyIff(t, Prefix(GCH_RULE));
      assert Matches(t[1], Prefix(GCH_RULE));
      AnyAppend(ls, t, Prefix(GCH_RULE));
      SubsequenceAppend(ls, t);
    } else {
      SubsequenceRefl(ls);
    }
  }

  /** The clean edit leaves the removal command under the first `clean:` line, and fires exactly when it was not there. */
  lemma CleanLineEdit(ls: seq<string>)
    requires AddCleanLine(ls).Success?
    ensures var e := AddCleanLine(ls).value;
      && CleanGuard(e.lines)
      && Subsequence(ls, e.lines)
      && (e.rewrite <==> !CleanGuard(ls))
      && (e.rewrite ==> |e.lines| > |ls|)
      && (!e.rewrite ==> e.lines == ls)
  {
    var j := Find(ls, Prefix(CLEAN)).value;
    var e := AddCleanLine(ls).value;
    if e.rewrite {
      AddedLinesNotClean();
      CleanLineMentionsHeader();
      FindInsert(ls, j + 1, CLEAN_LINE, Prefix(CLEAN), j);
      SubsequenceInsert(ls, j + 1, CLEAN_LINE);
    } else {
      SubsequenceRefl(ls);
    }
  }

  /** Appending or inserting lines keeps the objects rule and the header rule present. */
  lemma RulesKeptByEdits(ls: seq<string>, t: seq<string>, i: nat, x: string)
    requires i <= |ls|
    ensures ObjsGuard(ls) ==> ObjsGuard(ls + t) && ObjsGuard(Insert(ls, i, x))
    ensures GchGuard(ls) ==> GchGuard(ls + t) && GchGuard(Insert(ls, i, x))
  {
    AnyAppend(ls, t, Prefix(GCH_RULE));
    AnyInsert(ls, i, x, Prefix(GCH_RULE));
    if ObjsGuard(ls) {
      var k :| 0 <= k < |ls| && ls[k] == GCH_O_RULE;
      assert (ls + t)[k] == GCH_O_RULE;
      assert Insert(ls, i, x)[if k < i then k else k + 1] == GCH_O_RULE;
    }
  }

  /** A makefile that passes all four checks is left as it is, whatever subdir.mk holds. */
  lemma PatchedUnchanged(ls: seq<string>, subdir: seq<string>)
    requires Patched(ls)
    ensures Patch(ls, subdir) == Success(Edited(ls, false))
  {
    assert AddDepLine(ls) == Success(Edited(ls, false));
    assert AddObjsRule(ls) == Edited(ls, false);
    assert AddGchRule(ls, subdir) == Success(Edited(ls, false));
    assert AddCleanLine(ls) == Success(Edited(ls, false));
  }

  /** The later edits keep the dependency line and the objects rule that the earlier ones put in place. */
  lemma GchRuleKeeps(ls: seq<string>, subdir: seq<string>)
    requires AddGchRule(ls, subdir).Success?
    ensures var e := AddGchRule(ls, subdir).value;
      (DepGuard(ls) ==> DepGuard(e.lines)) && (ObjsGuard(ls) ==> ObjsGuard(e.lines))
  {
    var e := AddGchRule(ls, subdir).value;
    GchRuleEdit(ls, subdir);
    if e.rewrite {
      var k :| 0 <= k < |subdir| && e.lines == ls + ["", GCH_RULE, RewriteCommand(subdir[k])] && HasPrefix(subdir[k], GPP);
      if DepGuard(ls) {
        DepGuardAppend(ls, ["", GCH_RULE, RewriteCommand(subdir[k])]);
      }
      RulesKeptByEdits(ls, ["", GCH_RULE, RewriteCommand(subdir[k])], 0, "");
    }
  }

  lemma CleanLineKeeps(ls: seq<string>)
    requires AddCleanLine(ls).Success?
    ensures var e := AddCleanLine(ls).value;
      && (DepGuard(ls) ==> DepGuard(e.lines))
      && (ObjsGuard(ls) ==> ObjsGuard(e.lines))
      && (GchGuard(ls) ==> GchGuard(e.lines))
  {
    var e := AddCleanLine(ls).value;
    var j := Find(ls, Prefix(CLEAN)).value;
    if e.rewrite {
      if DepGuard(ls) {
        DepGuardCleanInsert(ls, j);
      }
      RulesKeptByEdits(ls, [], j + 1, CLEAN_LINE);
    }
  }

  /** The four edits of a successful run, one after the other. */
  lemma PatchSteps(ls: seq<string>, subdir: seq<string>)
    requires Patch(ls, subdir).Success?
    ensures AddDepLine(ls).Success?
    ensures var e2 := AddObjsRule(AddDepLine(ls).value.lines);
      && AddGchRule(e2.lines, subdir).Success?
      && var e3 := AddGchRule(e2.lines, subdir).value;
      && AddCleanLine(e3.lines).Success?
      && Patch(ls, subdir).value ==
        Edited(AddCleanLine(e3.lines).value.lines,
          AddDepLine(ls).value.rewrite || e2.rewrite || e3.rewrite || AddCleanLine(e3.lines).value.rewrite)
  {
  }

  /** A successful run leaves a makefile that passes all four checks. */
  lemma PatchEstablishes(ls: seq<string>, subdir: seq<string>)
    requires Patch(ls, subdir).Success?
    ensures Patched(Patch(ls, subdir).value.lines)
  {
    PatchSteps(ls, subdir);
    var e1 := AddDepLine(ls).value;
    var e2 := AddObjsRule(e1.lines);
    var e3 := AddGchRule(e2.lines, subdir).value;
    DepLineEdit(ls);
    ObjsRuleEdit(e1.lines);
    if e2.rewrite {
      DepGuardAppend(e1.lines, ["", GCH_O_RULE, ""]);
    }
    GchRuleEdit(e2.lines, subdir);
    GchRuleKeeps(e2.lines, subdir);
    CleanLineEdit(e3.lines);
    CleanLineKeeps(e3.lines);
  }

  /**
   * A successful run keeps every original line in its original order, and
   * sets `rewrite_makefile` exactly when it added a line.
   */
  lemma PatchKeepsLines(ls: seq<string>, subdir: seq<string>)
    requires Patch(ls, subdir).Success?
    ensures var e := Patch(ls, subdir).value;
      && Subsequence(ls, e.lines)
      && (e.rewrite ==> |e.lines| > |ls|)
      && (!e.rewrite ==> e.lines == ls)
  {
    PatchSteps(ls, subdir);
    var e1 := AddDepLine(ls).value;
    var e2 := AddObjsRule(e1.lines);
    var e3 := AddGchRule(e2.lines, subdir).value;
    var e4 := AddCleanLine(e3.lines).value;
    DepLineEdit(ls);
    ObjsRuleEdit(e1.lines);
    GchRuleEdit(e2.lines, subdir);
    CleanLineEdit(e3.lines);
    SubsequenceTrans(ls, e1.lines, e2.lines);
    SubsequenceTrans(ls, e2.lines, e3.lines);
    SubsequenceTrans(ls, e3.lines, e4.lines);
  }

  /** A run that edits nothing was given a makefile that already passed all four checks. */
  lemma UneditedWasPatched(ls: seq<string>, subdir: seq<string>)
    requires Patch(ls, subdir).Success? && !Patch(ls, subdir).value.rewrite
    ensures Patched(ls)
  {
    PatchSteps(ls, subdir);
    var e1 := AddDepLine(ls).value;
    var e2 := AddObjsRule(e1.lines);
    var e3 := AddGchRule(e2.lines, subdir).value;
    DepLineEdit(ls);
    ObjsRuleEdit(e1.lines);
    GchRuleEdit(e2.lines, subdir);
    CleanLineEdit(e3.lines);
  }

  /**
   * A successful run leaves a makefile that passes all four checks, keeps
   * every original line in its original order, and sets `rewrite_makefile`
   * exactly when the makefile changed, which is exactly when the makefile
   * failed one of the checks.
   */
  lemma PatchOutcome(ls: seq<string>, subdir: seq<string>)
    requires Patch(ls, subdir).Success?
    ensures var e := Patch(ls, subdir).value;
      && Patched(e.lines)
      && Subsequence(ls, e.lines)
      && (e.rewrite <==> e.lines != ls)
      && (e.rewrite <==> !Patched(ls))
  {
    PatchEstablishes(ls, subdir);
    PatchKeepsLines(ls, subdir);
    if Patched(ls) {
      PatchedUnchanged(ls, subdir);
    }
    if !Patch(ls, subdir).value.rewrite {
      UneditedWasPatched(ls, subdir);
    }
  }

  /**
   * Running the script on its own output edits nothing and leaves
   * `rewrite_makefile` false; the second run does not even need subdir.mk.
   */
  lemma Idempotent(ls: seq<string>, subdir: seq<string>, subdir': seq<string>)
    requires Patch(ls, subdir).Success?
    ensures Patch(Patch(ls, subdir).value.lines, subdir') == Success(Edited(Patch(ls, subdir).value.lines, false))
  {
    PatchOutcome(ls, subdir);
    PatchedUnchanged(Patch(ls, subdir).value.lines, subdir');
  }

  /** The first two edits add no line starting with the header's rule or with `clean:`. */
  lemma FirstEditsAddNoAnchor(ls: seq<string>)
    requires AddDepLine(ls).Success?
    ensures var e2 := AddObjsRule(AddDepLine(ls).value.lines);
      && (Any(e2.lines, Prefix(GCH_RULE)) <==> Any(ls, Prefix(GCH_RULE)))
      && (Any(e2.lines, Prefix(CLEAN)) <==> Any(ls, Prefix(CLEAN)))
  {
    var e1 := AddDepLine(ls).value;
    var e2 := AddObjsRule(e1.lines);
    AddedLinesNotGchRule();
    AddedLinesNotClean();
    var i := Find(ls, Equal(OBJECTS_INCLUDE)).value;
    if e1.rewrite {
      AnyInsert(ls, i + 1, DEP_LINE, Prefix(GCH_RULE));
      AnyInsert(ls, i + 1, DEP_LINE, Prefix(CLEAN));
    }
    var objs := ["", GCH_O_RULE, ""];
    if e2.rewrite {
      AnyOfLines(objs, Prefix(GCH_RULE));
      AnyOfLines(objs, Prefix(CLEAN));
      AnyAppend(e1.lines, objs, Prefix(GCH_RULE));
      AnyAppend(e1.lines, objs, Prefix(CLEAN));
    }
  }

  /** The header-rule edit adds no line starting with `clean:`. */
  lemma GchRuleAddsNoClean(ls: seq<string>, subdir: seq<string>)
    requires AddGchRule(ls, subdir).Success?
    ensures Any(AddGchRule(ls, subdir).value.lines, Prefix(CLEAN)) <==> Any(ls, Prefix(CLEAN))
  {
    var e3 := AddGchRule(ls, subdir).value;
    if e3.rewrite {
      var k := Find(subdir, Prefix(GPP)).value;
      var gch := ["", GCH_RULE, RewriteCommand(subdir[k])];
      AddedLinesNotClean();
      CommandNotAnchor(subdir[k]);
      AnyOfLines(gch, Prefix(CLEAN));
      AnyAppend(ls, gch, Prefix(CLEAN));
    }
  }

  /** The first `raise`: the script fails on a makefile without `-include objects.mk`, and only there. */
  lemma FailsWithoutInclude(ls: seq<string>, subdir: seq<string>)
    ensures Patch(ls, subdir) == Failure(NoObjectsInclude) <==> OBJECTS_INCLUDE !in ls
  {
    AnyIff(ls, Equal(OBJECTS_INCLUDE));
    if OBJECTS_INCLUDE in ls {
      var e2 := AddObjsRule(AddDepLine(ls).value.lines);
      assert AddGchRule(e2.lines, subdir) != Failure(NoObjectsInclude);
    }
  }

  /** The second `raise`: subdir.mk has no g++ command, and it was needed because the header's rule is missing. */
  lemma FailsWithoutCommand(ls: seq<string>, subdir: seq<string>)
    ensures Patch(ls, subdir) == Failure(NoGppCommand) <==>
      OBJECTS_INCLUDE in ls && !Any(ls, Prefix(GCH_RULE)) && !Any(subdir, Prefix(GPP))
  {
    AnyIff(ls, Equal(OBJECTS_INCLUDE));
    if OBJECTS_INCLUDE in ls {
      FirstEditsAddNoAnchor(ls);
    }
  }

  /** The third `raise`: the makefile has no `clean:` line, once the first two checks have passed. */
  lemma FailsWithoutClean(ls: seq<string>, subdir: seq<string>)
    ensures Patch(ls, subdir) == Failure(NoCleanRule) <==>
      OBJECTS_INCLUDE in ls && (Any(ls, Prefix(GCH_RULE)) || Any(subdir, Prefix(GPP))) && !Any(ls, Prefix(CLEAN))
  {
    AnyIff(ls, Equal(OBJECTS_INCLUDE));
    if OBJECTS_INCLUDE in ls {
      FirstEditsAddNoAnchor(ls);
      var e2 := AddObjsRule(AddDepLine(ls).value.lines);
      if AddGchRule(e2.lines, subdir).Success? {
        GchRuleAddsNoClean(e2.lines, subdir);
      }
    }
  }

  /** No line of a short list matches when none of its lines does. */
  lemma AnyOfLines(t: seq<string>, p: Pattern)
    requires forall k :: 0 <= k < |t| ==> !Matches(t[k], p)
    ensures !Any(t, p)
  {
    FindNone(t, p);
  }
}
