/**
 * Harvesting of the template variables: build parameters under `param.`, the
 * project's accessor values under `project.`, and the first remote (Git) or
 * location (Subversion) of the project's source control under `git.` or `svn.`.
 */
module Variables {
  import opened Wrappers
  import opened JavaText

  /** The variable map built for one build: key to a possibly-null value. */
  type VariableMap = map<string, JString>

  /** The primitive types a Java method may return. */
  datatype Primitive = Int | Boolean | Long | Double | Float | Short | Byte | Char | Void

  /** The declared return type of an accessor, as far as `isSupported` distinguishes it. */
  datatype ReturnKind =
    | CharSequenceType    // any class assignable to `CharSequence`
    | NumberType          // any class assignable to `Number` (boxed integers, `BigDecimal`, ...)
    | PrimitiveType(primitive: Primitive)
    | OtherReference      // any other class, `Boolean` and `Character` included

  /** `isSupported`: textual or numeric classes, and six of the primitive types. */
  predicate IsSupported(k: ReturnKind)
  {
    match k
    case CharSequenceType => true
    case NumberType => true
    case PrimitiveType(p) => p in {Int, Boolean, Long, Double, Float, Short}
    case OtherReference => false
  }

  /** The only rejected kinds: three primitive types and every reference outside the two families. */
  lemma UnsupportedKinds(k: ReturnKind)
    ensures !IsSupported(k) <==>
      k == PrimitiveType(Byte) || k == PrimitiveType(Char) || k == PrimitiveType(Void) || k == OtherReference
  {
    match k
    case PrimitiveType(p) =>
      match p {
        case Byte =>
        case Char =>
        case Void =>
        case _ =>
          assert p in {Int, Boolean, Long, Double, Float, Short};
      }
    case _ =>
  }

  /** What a reflective call of the accessor does; `Returned` carries `String.valueOf` of the result. */
  datatype Invocation = Threw | ReturnedNull | Returned(text: string)

  /** A zero-or-more-argument method of the project class, with the outcome of calling it on the project. */
  datatype Accessor = Accessor(name: string, paramCount: nat, returnKind: ReturnKind, invocation: Invocation)

  /** `invokeMethod`: `null` when the call throws, otherwise `String.valueOf` of the result. */
  function InvokeMethod(inv: Invocation): (r: JString)
    ensures r.None? <==> inv.Threw?
    ensures inv.ReturnedNull? ==> r == Some("null")
    ensures inv.Returned? ==> r == Some(inv.text)
  {
    match inv
    case Threw => None
    case ReturnedNull => Some("null")
    case Returned(text) => Some(text)
  }

  /** Where the field name starts in an accessor's name: 0 after `is`, 3 after `get`, -1 for neither. */
  function PrefixStart(name: string): (start: int)
    ensures start == 0 || start == 3 || start == -1
    ensures start < 0 <==> !StartsWith(name, "is") && !StartsWith(name, "get")
    ensures start <= |name|
    ensures start == |name| <==> name == "get"
    ensures StartsWith(name, "is") ==> start == 0
    ensures !StartsWith(name, "is") && StartsWith(name, "get") ==> start == 3
  {
    if StartsWith(name, "is") then
      assert name[1] == name[..2][1] != "get"[1];
      0
    else if StartsWith(name, "get") then
      assert |name| == 3 ==> name == name[..3];
      3
    else -1
  }

  /** The field name: the name from `start` on, its first letter lower-cased. */
  function FieldName(name: string, start: nat): (f: string)
    requires start < |name|
    ensures |f| == |name| - start
    ensures f[0] == LowerChar(name[start]) && !IsUpper(f[0])
    ensures f[1..] == name[start + 1..]
  {
    [LowerChar(name[start])] + name[start + 1..]
  }

  /** The name of the getter that yields a field: the inverse of `FieldName` on getters. */
  function GetterName(field: string): string
    requires field != []
  {
    "get" + [UpperChar(field[0])] + field[1..]
  }

  /** `getXyz` yields the field `xyz`, and that field leads back to `getXyz`. */
  lemma GetterFieldRoundTrip(name: string)
    requires StartsWith(name, "get") && |name| > 3 && IsUpper(name[3])
    ensures PrefixStart(name) == 3
    ensures GetterName(FieldName(name, 3)) == name
  {
    assert name[1] == name[..3][1] == 'e';
    assert name == name[..3] + [name[3]] + name[4..];
  }

  /** `isXyz` starts at 0 and keeps its prefix: the field is the whole name. */
  lemma IsAccessorKeepsName(name: string)
    requires StartsWith(name, "is")
    ensures PrefixStart(name) == 0
    ensures FieldName(name, 0) == name
  {
    assert name == [name[0]] + name[1..];
  }

  /** The effect of one accessor on the variable map. */
  datatype Step = Skip | Put(key: string, value: string) | Crash

  /**
   * One turn of the accessor loop: an accessor without arguments, of a supported type,
   * named `is...` or `get...`, whose call does not throw, writes `project.<field>`. A
   * method named exactly `get` whose call succeeds makes the field-name `substring`
   * throw, which ends the whole notification.
   */
  function AccessorStep(a: Accessor): Step
  {
    if a.paramCount != 0 || !IsSupported(a.returnKind) then Skip
    else
      var start := PrefixStart(a.name);
      if start < 0 then Skip
      else
        match InvokeMethod(a.invocation)
        case None => Skip
        case Some(value) =>
          if |a.name| <= start then Crash
          else Put("project." + FieldName(a.name, start), value)
  }

  /** Exactly the eligible accessors write a key, `project.` and the field name, with the text of their result. */
  lemma AccessorStepWrites(a: Accessor)
    ensures AccessorStep(a).Put? <==>
      a.paramCount == 0 && IsSupported(a.returnKind) && PrefixStart(a.name) >= 0
      && !a.invocation.Threw? && |a.name| > PrefixStart(a.name)
    ensures AccessorStep(a).Put? ==>
      && AccessorStep(a).key == "project." + FieldName(a.name, PrefixStart(a.name))
      && StartsWith(AccessorStep(a).key, "project.")
      && Some(AccessorStep(a).value) == InvokeMethod(a.invocation)
    ensures AccessorStep(a).Crash? <==>
      a.paramCount == 0 && IsSupported(a.returnKind) && a.name == "get" && !a.invocation.Threw?
  {
  }

  /** The `project.` entries written by the accessors in order; `None` when one of them crashes. */
  function ProjectVariables(accessors: seq<Accessor>): Option<VariableMap>
  {
    if accessors == [] then Some(map[])
    else
      match ProjectVariables(accessors[..|accessors| - 1])
      case None => None
      case Some(m) =>
        match AccessorStep(accessors[|accessors| - 1])
        case Skip => Some(m)
        case Crash => None
        case Put(key, value) => Some(m[key := Some(value)])
  }

  /** Accessor `i` writes `key`. */
  predicate Writes(accessors: seq<Accessor>, i: int, key: string)
  {
    0 <= i < |accessors| && AccessorStep(accessors[i]).Put? && AccessorStep(accessors[i]).key == key
  }

  /** Accessor `i` writes `key` and no later accessor does. */
  predicate LastWrite(accessors: seq<Accessor>, i: int, key: string)
  {
    Writes(accessors, i, key) && forall j :: i < j < |accessors| ==> !Writes(accessors, j, key)
  }

  /** The loop fails exactly when some accessor crashes. */
  lemma {:induction false} ProjectVariablesFail(accessors: seq<Accessor>)
    ensures ProjectVariables(accessors).None? <==>
      exists i :: 0 <= i < |accessors| && AccessorStep(accessors[i]).Crash?
  {
    if accessors != [] {
      var n := |accessors| - 1;
      var init := accessors[..n];
      ProjectVariablesFail(init);
      if exists i :: 0 <= i < |init| && AccessorStep(init[i]).Crash? {
        var i :| 0 <= i < |init| && AccessorStep(init[i]).Crash?;
        assert accessors[i] == init[i];
      }
      if exists i :: 0 <= i < |accessors| && AccessorStep(accessors[i]).Crash? {
        var i :| 0 <= i < |accessors| && AccessorStep(accessors[i]).Crash?;
        if i < n {
          assert init[i] == accessors[i];
        }
      }
    }
  }

  /**
   * The keys are those some accessor writes, and each holds the value of the last
   * accessor writing it: later puts overwrite earlier ones.
   */
  lemma {:induction false} ProjectVariablesLastWriteWins(accessors: seq<Accessor>, m: VariableMap)
    requires ProjectVariables(accessors) == Some(m)
    ensures forall key :: key in m <==> exists i :: Writes(accessors, i, key)
    ensures forall i, key :: LastWrite(accessors, i, key) ==> m[key] == Some(AccessorStep(accessors[i]).value)
  {
    if accessors != [] {
      var n := |accessors| - 1;
      var init := accessors[..n];
      var m0 := ProjectVariables(init).value;
      ProjectVariablesLastWriteWins(init, m0);
      var step := AccessorStep(accessors[n]);
      assert m == if step.Put? then m0[step.key := Some(step.value)] else m0;
      assert forall i, key :: 0 <= i < n ==> (Writes(init, i, key) <==> Writes(accessors, i, key));
      forall key
        ensures key in m <==> exists i :: Writes(accessors, i, key)
      {
        if !Writes(accessors, n, key) && key in m {
          var i :| Writes(init, i, key);
          assert Writes(accessors, i, key);
        }
      }
      forall i, key | LastWrite(accessors, i, key)
        ensures m[key] == Some(AccessorStep(accessors[i]).value)
      {
        if i < n {
          assert !Writes(accessors, n, key);
          assert LastWrite(init, i, key);
        }
      }
    }
  }

  /** One remote of a Git configuration. */
  datatype GitRemote = GitRemote(name: JString, url: JString, refspec: JString)

  /** The project's source-control binding. */
  datatype Scm =
    | Git(remotes: seq<GitRemote>)
    | Subversion(locations: seq<JString>)   // the URL of each module location
    | OtherScm
    | NoScm

  /** `replaceAll("\\.git$", "")`: one trailing `.git` is removed. */
  function StripGitSuffix(url: string): (r: string)
    ensures EndsWith(url, ".git") ==> r + ".git" == url
    ensures !EndsWith(url, ".git") ==> r == url
  {
    if EndsWith(url, ".git") then url[..|url| - 4] else url
  }

  /** Only one suffix goes: a URL ending in `.git.git` keeps one. */
  lemma StripGitSuffixOnce(base: string)
    ensures StripGitSuffix(base + ".git") == base
  {
    assert EndsWith(base + ".git", ".git");
  }

  /** The source-control entries; `None` when the first Git remote has a null URL. */
  function ScmVariables(scm: Scm): Option<VariableMap>
  {
    match scm
    case Git(remotes) =>
      if remotes == [] then Some(map[])
      else if remotes[0].url.None? then None
      else
        var remote := remotes[0];
        Some(map[
          "git.name" := remote.name,
          "git.url" := Some(StripGitSuffix(remote.url.value)),
          "git.cloneUrl" := remote.url,
          "git.refspec" := remote.refspec])
    case Subversion(locations) =>
      if locations == [] then Some(map[]) else Some(map["svn.url" := locations[0]])
    case OtherScm => Some(map[])
    case NoScm => Some(map[])
  }

  /** The keys source control contributes: four from the first Git remote, one from the first Subversion location, or none. */
  lemma ScmVariablesKeys(scm: Scm, m: VariableMap)
    requires ScmVariables(scm) == Some(m)
    ensures scm.Git? && scm.remotes != [] ==>
      && m.Keys == {"git.name", "git.url", "git.cloneUrl", "git.refspec"}
      && m["git.name"] == scm.remotes[0].name
      && m["git.cloneUrl"] == scm.remotes[0].url
      && m["git.refspec"] == scm.remotes[0].refspec
    ensures scm.Git? && scm.remotes != [] && EndsWith(scm.remotes[0].url.value, ".git") ==>
      m["git.url"].Some? && m["git.url"].value + ".git" == m["git.cloneUrl"].value
    ensures scm.Git? && scm.remotes != [] && !EndsWith(scm.remotes[0].url.value, ".git") ==>
      m["git.url"] == m["git.cloneUrl"]
    ensures scm.Subversion? && scm.locations != [] ==> m == map["svn.url" := scm.locations[0]]
    ensures (scm.Git? && scm.remotes == []) || (scm.Subversion? && scm.locations == []) || scm.OtherScm? || scm.NoScm? ==>
      m == map[]
  {
  }

  /** Every build variable `k` as `param.k`. */
  function ParamVariables(buildVariables: map<string, JString>): VariableMap
  {
    map key | key in (set k | k in buildVariables :: "param." + k) :: buildVariables[key[6..]]
  }

  /** The project as the notifier sees it: the accessors of its class, and its source control. */
  datatype ProjectView = ProjectView(accessors: seq<Accessor>, scm: Scm)

  /**
   * The complete variable map, written in the order `perform` writes it; `None` when
   * harvesting throws: the project is not a `Project` (the cast fails), a method named
   * exactly `get` that takes no arguments and has a supported return type returns a
   * value without throwing, or the first Git remote has no URL.
   */
  function Harvested(buildVariables: Option<map<string, JString>>, project: Option<ProjectView>): Option<VariableMap>
  {
    var params := if buildVariables.Some? then ParamVariables(buildVariables.value) else map[];
    if project.None? then None
    else
      match (ProjectVariables(project.value.accessors), ScmVariables(project.value.scm))
      case (Some(pv), Some(sv)) => Some(params + pv + sv)
      case _ => None
  }

  /** Prefixes are dropped by slicing. */
  lemma Unprefixed(prefix: string, s: string)
    ensures (prefix + s)[|prefix|..] == s
    ensures StartsWith(prefix + s, prefix)
  {
  }

  /** Every build variable `k` lands under `param.k` with its value. */
  lemma ParamVariablesComplete(buildVariables: map<string, JString>)
    ensures forall k :: k in buildVariables ==>
      "param." + k in ParamVariables(buildVariables) && ParamVariables(buildVariables)["param." + k] == buildVariables[k]
  {
    forall k | k in buildVariables
      ensures "param." + k in ParamVariables(buildVariables)
      ensures ParamVariables(buildVariables)["param." + k] == buildVariables[k]
    {
      Unprefixed("param.", k);
    }
  }

  /** Every key of the parameter entries is `param.` followed by a build variable. */
  lemma ParamVariablesSound(buildVariables: map<string, JString>)
    ensures forall key :: key in ParamVariables(buildVariables) ==>
      StartsWith(key, "param.") && key[6..] in buildVariables
  {
    forall key | key in ParamVariables(buildVariables)
      ensures StartsWith(key, "param.")
    {
      var k :| k in buildVariables && key == "param." + k;
      Unprefixed("param.", k);
    }
  }

  /** Every project entry is under `project.`. */
  lemma ProjectVariablesNamespace(accessors: seq<Accessor>, pv: VariableMap)
    requires ProjectVariables(accessors) == Some(pv)
    ensures forall key :: key in pv ==> StartsWith(key, "project.")
  {
    ProjectVariablesLastWriteWins(accessors, pv);
    forall key | key in pv
      ensures StartsWith(key, "project.")
    {
      var i :| Writes(accessors, i, key);
      AccessorStepWrites(accessors[i]);
    }
  }

  /** Two prefixes that differ at some index cannot both start the same key. */
  lemma DistinctPrefixes(key: string, p: string, q: string, i: nat)
    requires i < |p| && i < |q| && p[i] != q[i]
    ensures StartsWith(key, p) ==> !StartsWith(key, q)
  {
    if StartsWith(key, p) {
      assert key[i] == key[..|p|][i] == p[i];
      if |q| <= |key| {
        assert key[..|q|][i] == key[i];
      }
    }
  }

  /** Every source-control entry is under `git.` or `svn.`. */
  lemma ScmVariablesNamespace(scm: Scm, sv: VariableMap)
    requires ScmVariables(scm) == Some(sv)
    ensures forall key :: key in sv ==> StartsWith(key, "git.") || StartsWith(key, "svn.")
  {
  }

  /** Every parameter entry is under `param.`. */
  lemma ParamVariablesNamespace(buildVariables: map<string, JString>)
    ensures forall key :: key in ParamVariables(buildVariables) ==> StartsWith(key, "param.")
  {
    ParamVariablesSound(buildVariables);
  }

  /** A union of maps under the `param.`, `project.` and `git.`/`svn.` prefixes keeps every entry of every part. */
  lemma DisjointUnion(params: VariableMap, pv: VariableMap, sv: VariableMap)
    requires forall key :: key in params ==> StartsWith(key, "param.")
    requires forall key :: key in pv ==> StartsWith(key, "project.")
    requires forall key :: key in sv ==> StartsWith(key, "git.") || StartsWith(key, "svn.")
    ensures forall key :: key in params ==> key in params + pv + sv && (params + pv + sv)[key] == params[key]
    ensures forall key :: key in pv ==> key in params + pv + sv && (params + pv + sv)[key] == pv[key]
    ensures forall key :: key in sv ==> key in params + pv + sv && (params + pv + sv)[key] == sv[key]
  {
    forall key | key in params
      ensures key !in pv && key !in sv
    {
      DistinctPrefixes(key, "param.", "project.", 1);
      DistinctPrefixes(key, "param.", "git.", 0);
      DistinctPrefixes(key, "param.", "svn.", 0);
    }
    forall key | key in pv
      ensures key !in sv
    {
      DistinctPrefixes(key, "project.", "git.", 0);
      DistinctPrefixes(key, "project.", "svn.", 0);
    }
  }

  /** A harvest that succeeds is the union of its three parts, written in that order. */
  lemma HarvestedUnion(buildVariables: Option<map<string, JString>>, project: Option<ProjectView>, vars: VariableMap)
    requires Harvested(buildVariables, project) == Some(vars)
    ensures project.Some? && ProjectVariables(project.value.accessors).Some? && ScmVariables(project.value.scm).Some?
    ensures vars == (if buildVariables.Some? then ParamVariables(buildVariables.value) else map[])
      + ProjectVariables(project.value.accessors).value + ScmVariables(project.value.scm).value
  {
  }

  /**
   * Each source keeps its own namespace, so no entry hides another: every build
   * variable, every project entry and every source-control entry reaches the map.
   */
  lemma HarvestedContents(buildVariables: Option<map<string, JString>>, project: Option<ProjectView>, vars: VariableMap)
    requires Harvested(buildVariables, project) == Some(vars)
    ensures project.Some? && ProjectVariables(project.value.accessors).Some? && ScmVariables(project.value.scm).Some?
    ensures buildVariables.Some? ==>
      forall k :: k in buildVariables.value ==> "param." + k in vars && vars["param." + k] == buildVariables.value[k]
    ensures vars.Keys == (if buildVariables.Some? then ParamVariables(buildVariables.value).Keys else {})
      + ProjectVariables(project.value.accessors).value.Keys + ScmVariables(project.value.scm).value.Keys
    ensures forall key :: key in ProjectVariables(project.value.accessors).value ==>
      key in vars && vars[key] == ProjectVariables(project.value.accessors).value[key]
    ensures forall key :: key in ScmVariables(project.value.scm).value ==>
      key in vars && vars[key] == ScmVariables(project.value.scm).value[key]
  {
    var pv := ProjectVariables(project.value.accessors).value;
    var sv := ScmVariables(project.value.scm).value;
    var params := if buildVariables.Some? then ParamVariables(buildVariables.value) else map[];
    HarvestedUnion(buildVariables, project, vars);
    ProjectVariablesNamespace(project.value.accessors, pv);
    ScmVariablesNamespace(project.value.scm, sv);
    if buildVariables.Some? {
      ParamVariablesNamespace(buildVariables.value);
    }
    DisjointUnion(params, pv, sv);
    if buildVariables.Some? {
      assert forall k :: k in buildVariables.value ==> "param." + k in vars && vars["param." + k] == buildVariables.value[k] by {
        ParamVariablesComplete(buildVariables.value);
      }
    }
  }

  /**
   * The harvesting part of `perform`: the map is filled in place, parameters first,
   * then the project's accessors, then source control. `failed` reports the
   * exceptions that end the notification.
   */
  method Harvest(buildVariables: Option<map<string, JString>>, project: Option<ProjectView>)
    returns (vars: VariableMap, failed: bool)
    ensures failed <==> Harvested(buildVariables, project).None?
    ensures !failed ==> vars == Harvested(buildVariables, project).value
  {
    vars := map[];
    if buildVariables.Some? {
      vars := PutParams(buildVariables.value);
    }
    if project.None? {
      // the cast of the build's project to `Project` throws
      failed := true;
      return;
    }
    vars, failed := PutProjectEntries(vars, project.value.accessors);
    if failed {
      return;
    }
    vars, failed := PutScmEntries(vars, project.value.scm);
  }

  /** The loop over the build variables: one `param.` put per variable, in the map's own order. */
  method PutParams(variables: map<string, JString>) returns (vars: VariableMap)
    ensures vars == ParamVariables(variables)
  {
    vars := map[];
    var remaining := variables.Keys;
    while remaining != {}
      invariant remaining <= variables.Keys
      invariant vars == ParamVariables(variables - remaining)
      decreases remaining
    {
      var key :| key in remaining;
      ParamVariablesAdd(variables, remaining, key);
      vars := vars["param." + key := variables[key]];
      remaining := remaining - {key};
    }
    assert variables - {} == variables;
  }

  /** The loop over the project's accessors: one `project.` put per eligible accessor, in order. */
  method PutProjectEntries(vars0: VariableMap, accessors: seq<Accessor>) returns (vars: VariableMap, failed: bool)
    ensures failed <==> ProjectVariables(accessors).None?
    ensures !failed ==> vars == vars0 + ProjectVariables(accessors).value
  {
    vars, failed := vars0, false;
    var i := 0;
    while i < |accessors|
      invariant 0 <= i <= |accessors|
      invariant ProjectVariables(accessors[..i]).Some?
      invariant vars == vars0 + ProjectVariables(accessors[..i]).value
    {
      var a := accessors[i];
      assert accessors[..i + 1][..i] == accessors[..i];
      if a.paramCount == 0 && IsSupported(a.returnKind) {
        var start := PrefixStart(a.name);
        if start >= 0 {
          var value := InvokeMethod(a.invocation);
          if value.Some? {
            if |a.name| <= start {
              // `substring(3, 4)` on the name `get`
              failed := true;
              ProjectVariablesFail(accessors);
              return;
            }
            vars := vars["project." + FieldName(a.name, start) := value];
          }
        }
      }
      i := i + 1;
    }
    assert accessors[..i] == accessors;
  }

  /** The source-control puts: from the first Git remote or the first Subversion location only. */
  method PutScmEntries(vars0: VariableMap, scm: Scm) returns (vars: VariableMap, failed: bool)
    ensures failed <==> ScmVariables(scm).None?
    ensures !failed ==> vars == vars0 + ScmVariables(scm).value
  {
    vars, failed := vars0, false;
    match scm {
      case Git(remotes) =>
        if |remotes| > 0 {
          var remote := remotes[0];
          vars := vars["git.name" := remote.name];
          if remote.url.None? {
            // `getUrl().replaceAll(...)` on a null URL
            failed := true;
            return;
          }
          vars := vars["git.url" := Some(StripGitSuffix(remote.url.value))];
          vars := vars["git.cloneUrl" := remote.url];
          vars := vars["git.refspec" := remote.refspec];
        }
      case Subversion(locations) =>
        if |locations| > 0 {
          vars := vars["svn.url" := locations[0]];
        }
      case OtherScm =>
      case NoScm =>
    }
  }

  /** One more parameter put extends the parameter entries by one key. */
  lemma ParamVariablesAdd(variables: map<string, JString>, remaining: set<string>, key: string)
    requires key in remaining && remaining <= variables.Keys
    ensures ParamVariables(variables - (remaining - {key}))
         == ParamVariables(variables - remaining)["param." + key := variables[key]]
  {
    var before, after := variables - remaining, variables - (remaining - {key});
    ParamVariablesComplete(before);
    ParamVariablesSound(before);
    ParamVariablesComplete(after);
    ParamVariablesSound(after);
    Unprefixed("param.", key);
  }

  /** The origin remote `https://host/repo.git` gives the clone URL as is and the browsable URL without `.git`. */
  lemma GitOriginExample(refspec: JString)
    ensures ScmVariables(Git([GitRemote(Some("origin"), Some("https://host/repo.git"), refspec)]))
         == Some(map[
              "git.name" := Some("origin"),
              "git.url" := Some("https://host/repo"),
              "git.cloneUrl" := Some("https://host/repo.git"),
              "git.refspec" := refspec])
  {
    assert "https://host/repo" + ".git" == "https://host/repo.git";
    StripGitSuffixOnce("https://host/repo");
  }
}
