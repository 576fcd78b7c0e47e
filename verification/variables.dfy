/** Variable-set selection in build.php (`parse_variable_file`): which
    section of the parsed `build.ini` supplies the substitution variables,
    or every section but `master` when the build set is "all". */
module Variables {
  import opened Php

  /** One INI section: variable name to value. */
  type Section = map<string, string>

  /** What `parse_ini_file($path, true)` returns when it succeeds: the
      sections, in file order. */
  type Ini = OrderedMap<Section>

  /** The outcome of `parse_variable_file`: `array('all' => ...)`,
      `array('master' => ...)`, or the message of the exception it throws. */
  datatype Variables =
    | All(sets: Ini)
    | Single(vars: Section)
    | Error(message: string)

  /** `$variables['master']['build']`, where a missing section or key reads
      as null, which PHP turns into "" when it is used as a key or joined
      into a string. */
  function MasterBuild(ini: Ini): string {
    if "master" in ini.entries && "build" in ini.entries["master"] then ini.entries["master"]["build"] else ""
  }

  /** The name of the build set: the branch hint when it is not `empty`, is
      not "master" and names a section; otherwise the `build` entry of the
      `master` section. */
  function BuildSetName(ini: Ini, branch: string): string {
    if !Falsy(branch) && branch != "master" && branch in ini.entries then branch else MasterBuild(ini)
  }

  /** `parse_variable_file`. `parsed` is what `parse_ini_file` returned for
      `path`: `None` when it failed. An empty result is falsy in PHP and is
      refused the same way. */
  function ParseVariableFile(parsed: Option<Ini>, path: string, branch: string): (r: Variables)
    ensures r.Error? && r.message == "Could not open file: " + path
            <==> parsed.None? || parsed.value.entries == map[]
    ensures r.All? <==>
              parsed.Some? && parsed.value.entries != map[] && BuildSetName(parsed.value, branch) == "all"
    ensures r.All? ==> r.sets.entries == parsed.value.entries - {"master"}
                       && r.sets.keys == Without(parsed.value.keys, "master")
    ensures r.Single? <==>
              parsed.Some? && parsed.value.entries != map[]
              && var name := BuildSetName(parsed.value, branch);
                 name != "all" && name in parsed.value.entries && parsed.value.entries[name] != map[]
    ensures r.Single? ==> r.vars == parsed.value.entries[BuildSetName(parsed.value, branch)]
    ensures r.Error? && parsed.Some? && parsed.value.entries != map[] ==>
              r.message == "Could not access variable set: [" + BuildSetName(parsed.value, branch) + "]"
  {
    match parsed
    case None => Error("Could not open file: " + path)
    case Some(ini) =>
      if ini.entries == map[] then Error("Could not open file: " + path)
      else
        var buildSet := BuildSetName(ini, branch);
        if buildSet == "all" then All(ini.Unset("master"))
        else if buildSet in ini.entries && ini.entries[buildSet] != map[] then Single(ini.entries[buildSet])
        else
          var message := "Could not access variable set: [" + buildSet + "]";
          assert message[10] != ("Could not open file: " + path)[10];
          Error(message)
  }

  /** In "all" mode the sets handed back are a well-formed ordered array that
      no longer holds `master`. */
  lemma AllSetsWellFormed(ini: Ini, path: string, branch: string)
    requires ini.Valid()
    requires ParseVariableFile(Some(ini), path, branch).All?
    ensures var sets := ParseVariableFile(Some(ini), path, branch).sets;
      sets.Valid() && "master" !in sets.entries && "master" !in sets.keys
      && forall k :: k in sets.keys <==> k in ini.keys && k != "master"
  {
  }

  /** In "all" mode the other sets keep the order of the file: `master`
      is taken out where it stood, and nothing else moves. */
  lemma AllSetsInFileOrder(ini: Ini, path: string, branch: string)
    requires ini.Valid()
    requires ParseVariableFile(Some(ini), path, branch).All?
    ensures var sets := ParseVariableFile(Some(ini), path, branch).sets;
      && ("master" !in ini.keys ==> sets == ini)
      && forall i :: 0 <= i < |ini.keys| && ini.keys[i] == "master" ==>
           sets.keys == ini.keys[..i] + ini.keys[i + 1..]
           && sets.Values() == ini.Values()[..i] + ini.Values()[i + 1..]
  {
    if "master" !in ini.keys {
      ini.UnsetAbsent("master");
    }
    forall i | 0 <= i < |ini.keys| && ini.keys[i] == "master"
      ensures ini.Unset("master").keys == ini.keys[..i] + ini.keys[i + 1..]
      ensures ini.Unset("master").Values() == ini.Values()[..i] + ini.Values()[i + 1..]
    {
      ini.UnsetAt(i);
    }
  }

  /** Without a usable branch hint, `master.build` names the set. */
  lemma MasterBuildSelects(ini: Ini, path: string, branch: string, name: string)
    requires ini.entries != map[]
    requires "master" in ini.entries && "build" in ini.entries["master"] && ini.entries["master"]["build"] == name
    requires Falsy(branch) || branch == "master" || branch !in ini.entries
    ensures name == "all" ==> ParseVariableFile(Some(ini), path, branch).All?
    ensures name != "all" && name in ini.entries && ini.entries[name] != map[] ==>
              ParseVariableFile(Some(ini), path, branch) == Single(ini.entries[name])
    ensures name != "all" && (name !in ini.entries || ini.entries[name] == map[]) ==>
              ParseVariableFile(Some(ini), path, branch) == Error("Could not access variable set: [" + name + "]")
  {
  }

  /** A usable branch hint overrides `master.build`, whatever that says. */
  lemma BranchOverrides(ini: Ini, path: string, branch: string)
    requires ini.entries != map[]
    requires !Falsy(branch) && branch != "master" && branch != "all" && branch in ini.entries
    ensures ini.entries[branch] != map[] ==> ParseVariableFile(Some(ini), path, branch) == Single(ini.entries[branch])
    ensures ini.entries[branch] == map[] ==>
              ParseVariableFile(Some(ini), path, branch) == Error("Could not access variable set: [" + branch + "]")
  {
  }

  /** Without a `master.build` entry (and no usable branch hint) the build
      set name reads as "", so the run stops with an empty name in brackets,
      unless the file happens to hold a non-empty section named "". */
  lemma MissingMasterBuild(ini: Ini, path: string, branch: string)
    requires ini.entries != map[]
    requires !("master" in ini.entries && "build" in ini.entries["master"])
    requires Falsy(branch) || branch == "master" || branch !in ini.entries
    requires "" !in ini.entries || ini.entries[""] == map[]
    ensures ParseVariableFile(Some(ini), path, branch) == Error("Could not access variable set: []")
  {
  }

  /** The hint "master" is never taken as a branch: `master.build` decides. */
  lemma MasterHintIgnored(ini: Ini, path: string)
    ensures ParseVariableFile(Some(ini), path, "master") == ParseVariableFile(Some(ini), path, "")
  {
  }
}
