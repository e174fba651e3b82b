/**
 * Dependency filtering: which of the files declaring the symbols a node
 * refers to count as dependencies of the analysed file.
 */
module Dependencies {
  import opened Builtins

  /**
   * The reflection file name `fileName` yields dependency `dependency`: it
   * has a file name, which normalises to `dependency`, which is not the
   * scope's own file and is among the analysed files.
   */
  predicate Yields(fileName: Option<string>, dependency: string, scopeFile: string,
                   analysedFiles: set<string>, normalizePath: string -> string)
  {
    && fileName.Some?
    && normalizePath(fileName.value) == dependency
    && dependency != scopeFile
    && dependency in analysedFiles
  }

  /** The dependencies the reflection file names yield, in their order, repeats kept. */
  function KeptDependencies(fileNames: seq<Option<string>>, scopeFile: string, analysedFiles: set<string>,
                            normalizePath: string -> string): (kept: seq<string>)
    ensures forall d :: d in kept ==> d != scopeFile && d in analysedFiles
    ensures forall d :: d in kept <==>
      exists i :: 0 <= i < |fileNames| && Yields(fileNames[i], d, scopeFile, analysedFiles, normalizePath)
  {
    if fileNames == [] then []
    else
      var init, last := fileNames[..|fileNames| - 1], fileNames[|fileNames| - 1];
      var kept := KeptDependencies(init, scopeFile, analysedFiles, normalizePath);
      assert forall i :: 0 <= i < |init| ==> init[i] == fileNames[i];
      if last.Some? && normalizePath(last.value) != scopeFile && normalizePath(last.value) in analysedFiles
      then kept + [normalizePath(last.value)]
      else kept
  }

  /**
   * `resolveDependencies`: the dependency files of one node, each kept once
   * at its first position, as the keyed array `$dependencies` does.
   */
  method ResolveDependencies(fileNames: seq<Option<string>>, scopeFile: string, analysedFiles: set<string>,
                             normalizePath: string -> string) returns (dependencies: seq<string>)
    ensures dependencies == Unique(KeptDependencies(fileNames, scopeFile, analysedFiles, normalizePath))
    ensures NoDuplicates(dependencies)
    ensures forall d :: d in dependencies ==> d != scopeFile && d in analysedFiles
    ensures forall d :: d in dependencies <==>
      exists i :: 0 <= i < |fileNames| && Yields(fileNames[i], d, scopeFile, analysedFiles, normalizePath)
  {
    dependencies := [];
    for i := 0 to |fileNames|
      invariant dependencies == Unique(KeptDependencies(fileNames[..i], scopeFile, analysedFiles, normalizePath))
    {
      assert fileNames[..i + 1][..i] == fileNames[..i];
      var dependencyFile := fileNames[i];
      if dependencyFile.None? {
        continue;
      }
      var normalized := normalizePath(dependencyFile.value);
      if scopeFile == normalized {
        continue;
      }
      if normalized !in analysedFiles {
        continue;
      }
      UniqueAppend(KeptDependencies(fileNames[..i], scopeFile, analysedFiles, normalizePath), normalized);
      if normalized !in dependencies {
        dependencies := dependencies + [normalized];
      }
    }
    assert fileNames[..|fileNames|] == fileNames;
  }
}
