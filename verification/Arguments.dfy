/** The two rewrites the command line goes through before parsing: ArgumentNormalizer.Normalize
    (project-first forms such as `demo config`, `demo modules add`, `demo generate`) and then
    the `demo pull` / `demo push` swap of CliApplication.RunAsync. */
module Arguments {
  import opened Common

  /** Verbs that may follow a project name. */
  const ProjectFirstVerbs: set<string> :=
    {"create", "check", "forgot-secret", "verify-secret", "get-dbmls", "update-dbmls", "validate", "generate"}

  /** Names that are commands, so never taken for a project name by the verb rule. */
  const RootCommands: set<string> :=
    {"config", "project", "module", "create", "check", "forgot-secret", "verify-secret", "get-dbmls",
     "update-dbmls", "validate", "generate", "status"}

  /** `IsKnownCommand`'s set: a first argument in it is never swapped with pull/push. */
  const KnownCommands: set<string> :=
    {"config", "project", "module", "create", "check", "forgot-secret", "verify-secret", "get-dbmls",
     "update-dbmls", "validate", "remove", "templates", "generate", "status", "help", "--help", "-h", "-?"}

  predicate IsKnownCommand(arg: string)
  {
    ContainsIgnoreCase(KnownCommands, arg)
  }

  lemma CommandSetsNest()
    ensures ProjectFirstVerbs <= RootCommands <= KnownCommands
  {
  }

  /** A first argument that may be a project name: at least two arguments, the first not an
      option. */
  predicate ProjectFirst(args: seq<string>)
  {
    |args| >= 2 && !StartsWith(args[0], "-")
  }

  predicate IsConfigForm(args: seq<string>)
  {
    ProjectFirst(args) && EqualsIgnoreCase(args[1], "config")
  }

  predicate IsModulesForm(args: seq<string>)
  {
    ProjectFirst(args) && EqualsIgnoreCase(args[1], "modules")
  }

  /** The module sub-command named third, "add" or "remove", if any. */
  function ModuleSubcommand(args: seq<string>): Option<string>
  {
    if |args| >= 3 && EqualsIgnoreCase(args[2], "add") then Some("add")
    else if |args| >= 3 && EqualsIgnoreCase(args[2], "remove") then Some("remove")
    else None
  }

  predicate IsVerbForm(args: seq<string>)
  {
    ProjectFirst(args) && ContainsIgnoreCase(ProjectFirstVerbs, args[1]) && !ContainsIgnoreCase(RootCommands, args[0])
  }

  /** `ArgumentNormalizer.Normalize`: the first rule that matches rewrites the arguments,
      checked in the order config, modules, verb. */
  function Normalize(args: seq<string>): (r: seq<string>)
    ensures |args| <= |r| <= |args| + 2
    ensures r != args ==> ProjectFirst(args)
  {
    if IsConfigForm(args) then ["config", "--project", args[0]] + args[2..]
    else if IsModulesForm(args) then
      match ModuleSubcommand(args)
      case Some(sub) => ["module", sub, "--project", args[0]] + args[3..]
      case None => ["module", "list", "--project", args[0]] + args[2..]
    else if IsVerbForm(args) then [args[1], args[0]] + args[2..]
    else args
  }

  /** Fewer than two arguments, or an option first, pass through untouched. */
  lemma NormalizePassesOptions(args: seq<string>)
    requires !ProjectFirst(args)
    ensures Normalize(args) == args
  {
  }

  /** `P config rest` becomes `config --project P rest`: one argument more. */
  lemma NormalizeConfig(args: seq<string>)
    requires IsConfigForm(args)
    ensures var r := Normalize(args);
            |r| == |args| + 1 && r[..3] == ["config", "--project", args[0]] && r[3..] == args[2..]
  {
  }

  /** `P modules add|remove rest` becomes `module add|remove --project P rest` (one argument
      more); any other `P modules rest` becomes `module list --project P rest` (two more). */
  lemma NormalizeModules(args: seq<string>)
    requires IsModulesForm(args)
    ensures var r := Normalize(args);
            && r[0] == "module" && r[2] == "--project" && r[3] == args[0]
            && (ModuleSubcommand(args).Some? ==>
                  |r| == |args| + 1 && r[1] == ModuleSubcommand(args).value && r[4..] == args[3..])
            && (ModuleSubcommand(args).None? ==> |r| == |args| + 2 && r[1] == "list" && r[4..] == args[2..])
  {
    NotConfig("modules");
  }

  /** `P verb rest` with a project-first verb and a P that is not a command swaps the first
      two arguments and keeps the rest. */
  lemma NormalizeVerb(args: seq<string>)
    requires IsVerbForm(args)
    ensures var r := Normalize(args);
            |r| == |args| && r[0] == args[1] && r[1] == args[0] && r[2..] == args[2..]
  {
    assert "config" in RootCommands;
    assert "modules" !in ProjectFirstVerbs;
    if IsConfigForm(args) {
      assert ContainsIgnoreCase(ProjectFirstVerbs, "config") by { EqualsIgnoreCaseTransfer(ProjectFirstVerbs, args[1], "config"); }
      VerbsAreNotConfigOrModules();
    }
    if IsModulesForm(args) {
      assert ContainsIgnoreCase(ProjectFirstVerbs, "modules") by { EqualsIgnoreCaseTransfer(ProjectFirstVerbs, args[1], "modules"); }
      VerbsAreNotConfigOrModules();
    }
  }

  lemma NotConfig(w: string)
    requires w == "modules"
    ensures !EqualsIgnoreCase(w, "config")
  {
    DiffersAt(w, "config", 0);
  }

  lemma EqualsIgnoreCaseTransfer(words: set<string>, a: string, b: string)
    requires ContainsIgnoreCase(words, a) && EqualsIgnoreCase(a, b)
    ensures ContainsIgnoreCase(words, b)
  {
  }

  lemma VerbsAreNotConfigOrModules()
    ensures !ContainsIgnoreCase(ProjectFirstVerbs, "config")
    ensures !ContainsIgnoreCase(ProjectFirstVerbs, "modules")
  {
    forall v | v in ProjectFirstVerbs
      ensures !EqualsIgnoreCase(v, "config") && !EqualsIgnoreCase(v, "modules")
    {
      if v == "create" || v == "check" {
        DiffersAt(v, "config", 1);
      } else {
        DiffersAt(v, "config", 0);
      }
      DiffersAt(v, "modules", 0);
    }
  }

  /** The second argument of a rewritten line ("--project", "add", "remove", "list") starts
      with a character no rule word starts with. */
  lemma NoRuleWordAt(w: string)
    requires w in {"--project", "add", "remove", "list"}
    ensures !EqualsIgnoreCase(w, "config") && !EqualsIgnoreCase(w, "modules")
    ensures !ContainsIgnoreCase(ProjectFirstVerbs, w)
  {
    DiffersAt(w, "config", 0);
    DiffersAt(w, "modules", 0);
    forall v | v in ProjectFirstVerbs
      ensures !EqualsIgnoreCase(v, w)
    {
      DiffersAt(v, w, 0);
    }
  }

  /** Normalising twice is normalising once, unless the first argument is itself "modules"
      (which is not a command, so `modules create` is first swapped to `create modules`). */
  lemma NormalizeIdempotent(args: seq<string>)
    requires |args| == 0 || !EqualsIgnoreCase(args[0], "modules")
    ensures Normalize(Normalize(args)) == Normalize(args)
  {
    var r := Normalize(args);
    if IsConfigForm(args) {
      NoRuleWordAt(r[1]);
    } else if IsModulesForm(args) {
      NoRuleWordAt(r[1]);
    } else if IsVerbForm(args) {
      NormalizeVerb(args);
    }
  }

  /** The exception: `modules create` normalises to `create modules`, which normalises again to
      `module list --project create`. */
  lemma NormalizeNotIdempotentOnModules()
    ensures Normalize(["modules", "create"]) == ["create", "modules"]
    ensures Normalize(["create", "modules"]) == ["module", "list", "--project", "create"]
  {
    ModulesCreateSwapped();
    CreateModulesListed();
  }

  /** `modules create` is the verb form with project "modules". */
  lemma ModulesCreateSwapped()
    ensures Normalize(["modules", "create"]) == ["create", "modules"]
  {
    var args := ["modules", "create"];
    assert !StartsWith("modules", "-") by { assert "modules"[..1][0] == 'm'; }
    assert !EqualsIgnoreCase("create", "config") by { DiffersAt("create", "config", 1); }
    assert !EqualsIgnoreCase("create", "modules") by { DiffersAt("create", "modules", 0); }
    assert ContainsIgnoreCase(ProjectFirstVerbs, "create") by { assert "create" in ProjectFirstVerbs; }
    ModulesNotRootCommand();
    assert args[2..] == [];
  }

  /** No root command reads as "modules" in any casing. */
  lemma ModulesNotRootCommand()
    ensures !ContainsIgnoreCase(RootCommands, "modules")
  {
    forall v | v in RootCommands
      ensures !EqualsIgnoreCase(v, "modules")
    {
      if v == "module" {
        assert |Fold(v)| != |Fold("modules")|;
      } else {
        DiffersAt(v, "modules", 0);
      }
    }
  }

  /** `create modules` is the modules form with project "create" and no subcommand. */
  lemma CreateModulesListed()
    ensures Normalize(["create", "modules"]) == ["module", "list", "--project", "create"]
  {
    var next := ["create", "modules"];
    assert !StartsWith("create", "-") by { assert "create"[..1][0] == 'c'; }
    assert !EqualsIgnoreCase("modules", "config") by { DiffersAt("modules", "config", 0); }
    assert ModuleSubcommand(next) == None;
    assert next[2..] == [];
  }

  /** CliApplication.RunAsync: `P pull` and `P push` (exact lower case) become `pull P` and
      `push P` unless P is a known command. */
  function SwapPullPush(args: seq<string>): (r: seq<string>)
    ensures |r| == |args| && multiset(r) == multiset(args)
    ensures |args| >= 2 ==> r[2..] == args[2..]
    ensures r != args ==> |args| >= 2 && r[0] in {"pull", "push"} && r[0] == args[1] && r[1] == args[0]
  {
    if |args| >= 2 && (args[1] == "pull" || args[1] == "push") && !IsKnownCommand(args[0]) then
      assert args == [args[0], args[1]] + args[2..];
      [args[1], args[0]] + args[2..]
    else args
  }

  /** Program.cs: normalise, then let RunAsync swap. */
  function ProcessArgs(args: seq<string>): seq<string>
  {
    SwapPullPush(Normalize(args))
  }

  /** A line a normaliser rule rewrote starts with a known command, so the swap leaves it. */
  lemma SwapLeavesNormalized(args: seq<string>)
    requires Normalize(args) != args
    ensures ProcessArgs(args) == Normalize(args)
  {
    var r := Normalize(args);
    if IsConfigForm(args) {
      assert "config" in KnownCommands;
    } else if IsModulesForm(args) {
      assert "module" in KnownCommands;
    } else {
      var v :| v in ProjectFirstVerbs && EqualsIgnoreCase(v, args[1]);
      assert v in KnownCommands;
    }
  }

  /** `P pull` and `P push` are not normaliser forms: they reach the swap unchanged and come
      out as `pull P` / `push P` when P is not a command. */
  lemma PullPushSwapped(args: seq<string>)
    requires |args| >= 2 && args[1] in {"pull", "push"}
    ensures Normalize(args) == args
    ensures ProcessArgs(args) == if IsKnownCommand(args[0]) then args else [args[1], args[0]] + args[2..]
  {
    DiffersAt(args[1], "config", 0);
    DiffersAt(args[1], "modules", 0);
    forall v | v in ProjectFirstVerbs
      ensures !EqualsIgnoreCase(v, args[1])
    {
      DiffersAt(v, args[1], 0);
    }
  }
}
