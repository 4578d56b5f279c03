/** The bulk DBML commands of CliApplication: `get-dbmls` (project modules, then template
    modules) and `update-dbmls` (upload every local .dbml file). Each loop counts every item
    once, as a success or a failure. The network calls and file writes are outside the model:
    `attempt(i)` says whether the call for the i-th item (and its file write) went through. */
module Dbml {
  import opened Common

  /** A module record of the project modules response; `None` is a missing or null property. */
  datatype ModuleInfo = ModuleInfo(moduleName: Option<string>, templateKey: Option<string>, dbTypeKey: Option<string>)

  /** A template module record of the available modules response. */
  datatype TemplateInfo = TemplateInfo(key: Option<string>, name: Option<string>)

  /** One upload request: module name, template key, database type key. */
  datatype Upload = Upload(moduleName: string, templateKey: string, dbTypeKey: string)

  /** What the items that were not skipped and whose attempt went through produced, in order. */
  function Written<T>(targets: seq<Option<T>>, attempt: nat -> bool): (r: seq<T>)
    ensures |r| <= |targets|
  {
    if targets == [] then []
    else
      var n := |targets| - 1;
      Written(targets[..n], attempt) + (if targets[n].Some? && attempt(n) then [targets[n].value] else [])
  }

  /** One item more: what it produced, if anything, comes after what the earlier ones did. */
  lemma WrittenStep<T>(targets: seq<Option<T>>, i: nat, attempt: nat -> bool)
    requires i < |targets|
    ensures Written(targets[..i + 1], attempt)
            == Written(targets[..i], attempt) + (if targets[i].Some? && attempt(i) then [targets[i].value] else [])
  {
    assert targets[..i + 1][..i] == targets[..i];
  }

  /** The loop step in terms of what the i-th item produced. */
  lemma WrittenNext<T>(targets: seq<Option<T>>, i: nat, attempt: nat -> bool, done: Option<T>)
    requires i < |targets|
    requires (done.Some? <==> targets[i].Some? && attempt(i)) && (done.Some? ==> done == targets[i])
    ensures Written(targets[..i + 1], attempt) == Written(targets[..i], attempt) + (if done.Some? then [done.value] else [])
  {
    WrittenStep(targets, i, attempt);
  }

  /** The success count is the number of items that were not skipped and went through. */
  lemma {:induction false} WrittenCount<T>(targets: seq<Option<T>>, attempt: nat -> bool)
    ensures |Written(targets, attempt)| == |set i | 0 <= i < |targets| && targets[i].Some? && attempt(i)|
  {
    if targets != [] {
      var n := |targets| - 1;
      WrittenCount(targets[..n], attempt);
      var before := set i | 0 <= i < n && targets[..n][i].Some? && attempt(i);
      var all := set i | 0 <= i < |targets| && targets[i].Some? && attempt(i);
      assert before == set i | 0 <= i < n && targets[i].Some? && attempt(i);
      if targets[n].Some? && attempt(n) {
        assert all == before + {n};
      } else {
        assert all == before;
      }
    }
  }

  /** Everything written came from an item that was not skipped. */
  lemma {:induction false} WrittenFromTargets<T>(targets: seq<Option<T>>, attempt: nat -> bool)
    ensures forall x :: x in Written(targets, attempt) ==> Some(x) in targets
  {
    if targets != [] {
      var n := |targets| - 1;
      WrittenFromTargets(targets[..n], attempt);
      forall x | x in Written(targets, attempt)
        ensures Some(x) in targets
      {
        if x in Written(targets[..n], attempt) {
          assert Some(x) in targets[..n];
        } else {
          assert targets[n] == Some(x);
        }
      }
    }
  }

  /** A project module is downloaded to "<moduleName>.dbml"; one without a name or template key
      is skipped. */
  function DownloadTarget(m: ModuleInfo): (r: Option<string>)
    ensures r.Some? <==> !IsNullOrBlank(m.moduleName) && !IsNullOrBlank(m.templateKey)
    ensures r.Some? ==> r.value == m.moduleName.value + ".dbml"
  {
    if IsNullOrBlank(m.moduleName) || IsNullOrBlank(m.templateKey) then None
    else Some(m.moduleName.value + ".dbml")
  }

  /** A template module is downloaded to "templates/<key>.dbml"; one without a key or name is
      skipped. */
  function TemplateTarget(t: TemplateInfo): (r: Option<string>)
    ensures r.Some? <==> !IsNullOrBlank(t.key) && !IsNullOrBlank(t.name)
    ensures r.Some? ==> r.value == "templates/" + t.key.value + ".dbml"
  {
    if IsNullOrBlank(t.key) || IsNullOrBlank(t.name) then None
    else Some("templates/" + t.key.value + ".dbml")
  }

  /** The file each project module is downloaded to, in order. */
  function DownloadTargets(modules: seq<ModuleInfo>): (r: seq<Option<string>>)
    ensures |r| == |modules|
  {
    seq(|modules|, i requires 0 <= i < |modules| => DownloadTarget(modules[i]))
  }

  /** The file each template module is downloaded to, in order. */
  function TemplateTargets(templates: seq<TemplateInfo>): (r: seq<Option<string>>)
    ensures |r| == |templates|
  {
    seq(|templates|, i requires 0 <= i < |templates| => TemplateTarget(templates[i]))
  }

  /** One pass of the project module loop: the file written for a module, or `None` when the
      module is skipped or its download fails; `ok` is whether the call and the write went
      through. */
  method DownloadModule(m: ModuleInfo, ok: bool) returns (file: Option<string>)
    ensures file.Some? <==> DownloadTarget(m).Some? && ok
    ensures file.Some? ==> file == DownloadTarget(m)
  {
    if IsNullOrBlank(m.moduleName) || IsNullOrBlank(m.templateKey) {
      return None;
    }
    if ok {
      return Some(m.moduleName.value + ".dbml");
    }
    return None;
  }

  /** `get-dbmls`, project modules: returns the counts and the files written. */
  method DownloadProjectModules(modules: seq<ModuleInfo>, attempt: nat -> bool)
    returns (success: nat, fail: nat, written: seq<string>)
    ensures written == Written(DownloadTargets(modules), attempt)
    ensures success == |written| && success + fail == |modules|
  {
    ghost var targets := DownloadTargets(modules);
    success, fail, written := 0, 0, [];
    for i := 0 to |modules|
      invariant written == Written(targets[..i], attempt)
      invariant success == |written| && success + fail == i
    {
      var file := DownloadModule(modules[i], attempt(i));
      WrittenNext(targets, i, attempt, file);
      if file.Some? {
        written := written + [file.value];
        success := success + 1;
      } else {
        fail := fail + 1;
      }
    }
    assert targets[..|modules|] == targets;
  }

  /** One pass of the template loop: the file written for a template module, or `None`. */
  method DownloadTemplate(t: TemplateInfo, ok: bool) returns (file: Option<string>)
    ensures file.Some? <==> TemplateTarget(t).Some? && ok
    ensures file.Some? ==> file == TemplateTarget(t)
  {
    if IsNullOrBlank(t.key) || IsNullOrBlank(t.name) {
      return None;
    }
    if ok {
      return Some("templates/" + t.key.value + ".dbml");
    }
    return None;
  }

  /** `get-dbmls`, template modules: the same count over the available templates. */
  method DownloadTemplates(templates: seq<TemplateInfo>, attempt: nat -> bool)
    returns (success: nat, fail: nat, written: seq<string>)
    ensures written == Written(TemplateTargets(templates), attempt)
    ensures success == |written| && success + fail == |templates|
  {
    ghost var targets := TemplateTargets(templates);
    success, fail, written := 0, 0, [];
    for i := 0 to |templates|
      invariant written == Written(targets[..i], attempt)
      invariant success == |written| && success + fail == i
    {
      var file := DownloadTemplate(templates[i], attempt(i));
      WrittenNext(targets, i, attempt, file);
      if file.Some? {
        written := written + [file.value];
        success := success + 1;
      } else {
        fail := fail + 1;
      }
    }
    assert targets[..|templates|] == targets;
  }

  /** The module dictionary of `update-dbmls`, keyed by exact module name; a later record with
      the same name replaces an earlier one, and records without a name are left out. */
  function ModuleMapOf(modules: seq<ModuleInfo>): (r: map<string, ModuleInfo>)
    ensures forall k :: k in r ==> r[k].moduleName == Some(k) && !IsBlank(k)
  {
    if modules == [] then map[]
    else
      var n := |modules| - 1;
      var m := modules[n];
      if IsNullOrBlank(m.moduleName) then ModuleMapOf(modules[..n])
      else ModuleMapOf(modules[..n])[m.moduleName.value := m]
  }

  /** A name is in the dictionary exactly when some record carries it, and then it holds the
      last such record. */
  lemma {:induction false} ModuleMapLast(modules: seq<ModuleInfo>, k: string)
    ensures k in ModuleMapOf(modules) <==>
              !IsBlank(k) && exists i :: 0 <= i < |modules| && modules[i].moduleName == Some(k)
    ensures k in ModuleMapOf(modules) ==>
              exists i :: 0 <= i < |modules| && ModuleMapOf(modules)[k] == modules[i]
                          && forall j :: i < j < |modules| ==> modules[j].moduleName != Some(k)
  {
    if modules != [] {
      var n := |modules| - 1;
      ModuleMapLast(modules[..n], k);
      var m := modules[n];
      if m.moduleName == Some(k) && !IsBlank(k) {
        assert ModuleMapOf(modules)[k] == modules[n];
      } else if k in ModuleMapOf(modules[..n]) {
        var i :| 0 <= i < n && ModuleMapOf(modules[..n])[k] == modules[..n][i]
                 && forall j :: i < j < n ==> modules[..n][j].moduleName != Some(k);
        assert ModuleMapOf(modules)[k] == modules[i];
        assert forall j :: i < j < |modules| ==> modules[j].moduleName != Some(k) by {
          forall j | i < j < |modules|
            ensures modules[j].moduleName != Some(k)
          {
            if j < n {
              assert modules[..n][j] == modules[j];
            }
          }
        }
      } else if !IsBlank(k) {
        forall i | 0 <= i < |modules|
          ensures modules[i].moduleName != Some(k)
        {
          if i < n {
            assert modules[..n][i] == modules[i];
          }
        }
      }
    }
  }

  /** The loop that builds the module dictionary. */
  method BuildModuleMap(modules: seq<ModuleInfo>) returns (moduleMap: map<string, ModuleInfo>)
    ensures moduleMap == ModuleMapOf(modules)
  {
    moduleMap := map[];
    for i := 0 to |modules|
      invariant moduleMap == ModuleMapOf(modules[..i])
    {
      assert modules[..i + 1][..i] == modules[..i];
      var m := modules[i];
      if !IsNullOrBlank(m.moduleName) {
        moduleMap := moduleMap[m.moduleName.value := m];
      }
    }
    assert modules[..|modules|] == modules;
  }

  /** The upload for a local file named `<fileName>.dbml`: none when no module has that exact
      name or the module lacks its name, template key or database type. */
  function UploadTarget(moduleMap: map<string, ModuleInfo>, fileName: string): (r: Option<Upload>)
    ensures r.Some? ==> fileName in moduleMap && !IsBlank(r.value.templateKey) && !IsBlank(r.value.dbTypeKey)
    ensures r.Some? ==> moduleMap[fileName].templateKey == Some(r.value.templateKey)
                        && moduleMap[fileName].dbTypeKey == Some(r.value.dbTypeKey)
    ensures (&& fileName in moduleMap
             && !IsNullOrBlank(moduleMap[fileName].moduleName)
             && !IsNullOrBlank(moduleMap[fileName].templateKey)
             && !IsNullOrBlank(moduleMap[fileName].dbTypeKey)) ==> r.Some?
  {
    if fileName !in moduleMap then None
    else
      var m := moduleMap[fileName];
      if IsNullOrBlank(m.moduleName) || IsNullOrBlank(m.templateKey) || IsNullOrBlank(m.dbTypeKey) then None
      else Some(Upload(m.moduleName.value, m.templateKey.value, m.dbTypeKey.value))
  }

  /** The upload goes to the module the file is named after. */
  lemma UploadNamesFile(modules: seq<ModuleInfo>, fileName: string)
    requires UploadTarget(ModuleMapOf(modules), fileName).Some?
    ensures UploadTarget(ModuleMapOf(modules), fileName).value.moduleName == fileName
  {
  }

  /** The upload each local file would make, in order. */
  function UploadTargets(moduleMap: map<string, ModuleInfo>, files: seq<string>): (r: seq<Option<Upload>>)
    ensures |r| == |files|
  {
    seq(|files|, i requires 0 <= i < |files| => UploadTarget(moduleMap, files[i]))
  }

  /** One pass of the upload loop: the upload made for a local file, or `None` when the file
      is skipped or the upload fails; `ok` is whether the call returned true. */
  method UploadFile(moduleMap: map<string, ModuleInfo>, fileName: string, ok: bool) returns (done: Option<Upload>)
    ensures done.Some? <==> UploadTarget(moduleMap, fileName).Some? && ok
    ensures done.Some? ==> done == UploadTarget(moduleMap, fileName)
  {
    if fileName !in moduleMap {
      return None;
    }
    var m := moduleMap[fileName];
    if IsNullOrBlank(m.moduleName) || IsNullOrBlank(m.templateKey) || IsNullOrBlank(m.dbTypeKey) {
      return None;
    }
    if ok {
      return Some(Upload(m.moduleName.value, m.templateKey.value, m.dbTypeKey.value));
    }
    return None;
  }

  /** `update-dbmls`: `files` are the local file names without ".dbml"; `attempt(i)` is whether
      the i-th upload returned true (an exception or a false reply both count as a failure). */
  method UploadDbmls(modules: seq<ModuleInfo>, files: seq<string>, attempt: nat -> bool)
    returns (success: nat, fail: nat, uploaded: seq<Upload>)
    ensures uploaded == Written(UploadTargets(ModuleMapOf(modules), files), attempt)
    ensures success == |uploaded| && success + fail == |files|
  {
    var moduleMap := BuildModuleMap(modules);
    ghost var targets := UploadTargets(moduleMap, files);
    success, fail, uploaded := 0, 0, [];
    for i := 0 to |files|
      invariant uploaded == Written(targets[..i], attempt)
      invariant success == |uploaded| && success + fail == i
    {
      var done := UploadFile(moduleMap, files[i], attempt(i));
      WrittenNext(targets, i, attempt, done);
      if done.Some? {
        uploaded := uploaded + [done.value];
        success := success + 1;
      } else {
        fail := fail + 1;
      }
    }
    assert targets[..|files|] == targets;
  }
}
