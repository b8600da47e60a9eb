/**
 * The change-event noise filter: decides whether a filesystem change event
 * is uninteresting, because it only touches the `.git` directory, only
 * editor scratch files, or only gitignored paths.
 */
module Ignore {
  import opened Wrappers
  import opened Paths
  import EmacsPattern
  import opened Gitignore

  /** A change notification: the paths it touched and whether they are directories. */
  datatype FileChangeEvent = FileChangeEvent(paths: seq<Path>, isDir: bool)

  /**
   * The filter: the watched root and the gitignore loaded for it, if any.
   * The editor-lock-file regular expression is fixed (module `EmacsPattern`),
   * so constructing a checker is just this constructor.
   */
  datatype Checker = Checker(root: Path, gitignore: Option<Matcher>)

  /** The version-control metadata directory `root/.git`. */
  function GitDir(root: Path): Path
  {
    Join(root, ".git")
  }

  /** The file's extension starts with `sw` (vim's `.swp`, `.swo`, `.swx`, ...). */
  predicate HasSwapExtension(p: Path)
  {
    match Extension(p)
    case Some(e) => "sw" <= e
    case None => false
  }

  /**
   * `Checker::is_editor_file`: a swap-file extension, or the rendered path
   * matches the editor-lock-file regular expression.
   */
  function IsEditorFile(p: Path): (r: bool)
    ensures r <==> HasSwapExtension(p) || EmacsPattern.RegexMatches(Render(p))
  {
    EmacsPattern.IsMatchIsRegexMatch(Render(p));
    HasSwapExtension(p) || EmacsPattern.IsMatch(Render(p))
  }

  /** Every path lies, component by component, under `root/.git`. */
  predicate AllUnderGitDir(root: Path, paths: seq<Path>)
  {
    forall i :: 0 <= i < |paths| ==> StartsWith(paths[i], GitDir(root))
  }

  /** Every path is an editor scratch file. */
  predicate AllEditorFiles(paths: seq<Path>)
  {
    forall i :: 0 <= i < |paths| ==> IsEditorFile(paths[i])
  }

  /** The path, or one of its parents, is ignored by the gitignore. */
  predicate Gitignored(g: Matcher, isDir: bool, p: Path)
  {
    IsIgnore(MatchedPathOrAnyParents(g, p, isDir))
  }

  /** Every path, or one of its parents, is ignored by the gitignore. */
  predicate AllGitignored(g: Matcher, paths: seq<Path>, isDir: bool)
  {
    forall i :: 0 <= i < |paths| ==> Gitignored(g, isDir, paths[i])
  }

  /**
   * When an event is noise: all of its paths are under `.git`, or all are
   * editor files, or a gitignore is loaded and all are ignored by it.
   */
  predicate Ignored(c: Checker, e: FileChangeEvent)
  {
    || AllUnderGitDir(c.root, e.paths)
    || AllEditorFiles(e.paths)
    || (c.gitignore.Some? && AllGitignored(c.gitignore.value, e.paths, e.isDir))
  }

  /** `Iterator::all`: stops at the first element `f` rejects. */
  method All<T>(xs: seq<T>, f: T -> bool) returns (r: bool)
    ensures r <==> forall i :: 0 <= i < |xs| ==> f(xs[i])
  {
    var i := 0;
    while i < |xs|
      invariant 0 <= i <= |xs|
      invariant forall j :: 0 <= j < i ==> f(xs[j])
    {
      if !f(xs[i]) {
        return false;
      }
      i := i + 1;
    }
    return true;
  }

  /** The first rule: every path is under `root/.git`. */
  method CheckUnderGitDir(root: Path, paths: seq<Path>) returns (r: bool)
    ensures r <==> AllUnderGitDir(root, paths)
  {
    var gitDir := GitDir(root);
    r := All(paths, p => StartsWith(p, gitDir));
  }

  /** The second rule: every path is an editor file. */
  method CheckEditorFiles(paths: seq<Path>) returns (r: bool)
    ensures r <==> AllEditorFiles(paths)
  {
    r := All(paths, IsEditorFile);
  }

  /** The third rule: every path, or one of its parents, is gitignored. */
  method CheckGitignored(g: Matcher, paths: seq<Path>, isDir: bool) returns (r: bool)
    ensures r <==> AllGitignored(g, paths, isDir)
  {
    r := All(paths, p => Gitignored(g, isDir, p));
  }

  /** `Checker::is_ignored`: the three rules, tried in order. */
  method IsIgnored(c: Checker, e: FileChangeEvent) returns (r: bool)
    ensures r <==> Ignored(c, e)
  {
    var underGit := CheckUnderGitDir(c.root, e.paths);
    if underGit {
      return true;
    }
    var editor := CheckEditorFiles(e.paths);
    if editor {
      return true;
    }
    match c.gitignore {
      case Some(g) =>
        r := CheckGitignored(g, e.paths, e.isDir);
      case None =>
        r := false;
    }
  }

  /** No component of `p` contains a `#`. */
  predicate HashFree(p: Path)
  {
    forall k :: 0 <= k < |p.components| ==> '#' !in ComponentText(p.components[k])
  }

  /**
   * A file name with a `#` that follows some character other than a newline
   * (emacs's `.#name` lock files, but also `a#b`) makes the path an editor
   * file, whatever directory it is in.
   */
  lemma HashInFileNameIsEditorFile(dir: Path, name: string, i: nat)
    requires IsComponentName(name)
    requires EmacsPattern.HashAt(name, i)
    ensures IsEditorFile(Join(dir, name))
  {
    RenderAppend(dir, Normal(name));
    EmacsPattern.MatchInMiddle(Render(dir) + (if |dir.components| == 0 then "" else "/"), name, "");
    assert Render(dir) + (if |dir.components| == 0 then "" else "/") + name + ""
           == Render(Join(dir, name));
    EmacsPattern.IsMatchIsRegexMatch(Render(Join(dir, name)));
  }

  /**
   * A `#` at the start of a component that follows a directory also counts:
   * in the rendered path it comes right after a `/`.
   */
  lemma HashAfterSlashIsEditorFile(dir: Path, name: string)
    requires IsComponentName(name)
    requires |dir.components| > 0 && |name| > 0 && name[0] == '#'
    ensures IsEditorFile(Join(dir, name))
  {
    var s := Render(Join(dir, name));
    RenderAppend(dir, Normal(name));
    var at := |Render(dir)| + 1;
    assert s[at - 1] == '/' && s[at] == '#';
    assert EmacsPattern.HashAt(s, at);
    EmacsPattern.IsMatchIsRegexMatch(s);
  }

  /**
   * A `#` after some character other than a newline in any component of a
   * path makes it an editor file: the pattern is searched for in the whole
   * rendered path.
   */
  lemma HashInComponentIsEditorFile(p: Path, k: nat, i: nat)
    requires k < |p.components|
    requires EmacsPattern.HashAt(ComponentText(p.components[k]), i)
    ensures IsEditorFile(p)
  {
    var u, v := RenderContainsComponent(p, k);
    EmacsPattern.MatchInMiddle(u, ComponentText(p.components[k]), v);
    EmacsPattern.IsMatchIsRegexMatch(Render(p));
  }

  /** `p` lies under `root`: the same root directory, then all of `root`'s components. */
  predicate Beneath(root: Path, p: Path)
  {
    p.absolute == root.absolute && root.components <= p.components
  }

  /**
   * Such a `#` in the watched root's own components makes every path under
   * that root, at any depth, an editor file.
   */
  lemma HashInRootHidesEverything(root: Path, k: nat, i: nat, p: Path)
    requires k < |root.components|
    requires EmacsPattern.HashAt(ComponentText(root.components[k]), i)
    requires Beneath(root, p)
    ensures IsEditorFile(p)
  {
    assert p.components[k] == root.components[k];
    HashInComponentIsEditorFile(p, k, i);
  }

  /** So under such a root every event is ignored, whatever gitignore is loaded. */
  lemma HashInRootIgnoresEveryEvent(c: Checker, e: FileChangeEvent, k: nat, i: nat)
    requires k < |c.root.components|
    requires EmacsPattern.HashAt(ComponentText(c.root.components[k]), i)
    requires forall j :: 0 <= j < |e.paths| ==> Beneath(c.root, e.paths[j])
    ensures Ignored(c, e)
  {
    forall j | 0 <= j < |e.paths|
      ensures IsEditorFile(e.paths[j])
    {
      HashInRootHidesEverything(c.root, k, i, e.paths[j]);
    }
  }

  /** For instance, every path under a project root `/c#proj` is an editor file. */
  lemma HashProjectRootHidesEverything(p: Path)
    requires Beneath(Path(true, [Normal("c#proj")]), p)
    ensures IsEditorFile(p)
  {
    var root := Path(true, [Normal("c#proj")]);
    assert EmacsPattern.HashAt(ComponentText(root.components[0]), 1);
    HashInRootHidesEverything(root, 0, 1, p);
  }

  /** A file name without `#` under a `#`-free directory renders without `#`. */
  lemma HashFreeRender(dir: Path, name: string)
    requires IsComponentName(name)
    requires HashFree(dir) && '#' !in name
    ensures !EmacsPattern.IsMatch(Render(Join(dir, name)))
  {
    JoinHashFree(dir, name);
    NotInRender(Join(dir, name), '#');
  }

  /** Appending a `#`-free name to a `#`-free path keeps it `#`-free. */
  lemma JoinHashFree(dir: Path, name: string)
    requires IsComponentName(name)
    requires HashFree(dir) && '#' !in name
    ensures HashFree(Join(dir, name))
  {
    assert Join(dir, name).components == dir.components + [Normal(name)];
  }

  /** An event whose every path is under `.git` is ignored, whatever the gitignore says. */
  lemma GitDirEventIgnored(c: Checker, name: string, isDir: bool)
    requires IsComponentName(name)
    ensures Ignored(c, FileChangeEvent([Join(GitDir(c.root), name)], isDir))
  {
    var p := Join(GitDir(c.root), name);
    assert GitDir(c.root).components <= p.components;
  }

  /** `<root>/.#blah` is ignored even when no gitignore is loaded. */
  lemma EmacsLockFileIgnored(root: Path)
    ensures Ignored(Checker(root, None), FileChangeEvent([Join(root, ".#blah")], false))
  {
    assert EmacsPattern.HashAt(".#blah", 1);
    HashInFileNameIsEditorFile(root, ".#blah", 1);
  }

  /** `<root>/.something.swp` is ignored even when no gitignore is loaded. */
  lemma VimSwapFileIgnored(root: Path)
    ensures Ignored(Checker(root, None), FileChangeEvent([Join(root, ".something.swp")], false))
  {
    var p := Join(root, ".something.swp");
    SwpExtension();
    assert HasSwapExtension(p);
    SingleEditorFileIgnored(Checker(root, None), p, false);
  }

  /** A one-path event whose path is an editor file is ignored. */
  lemma SingleEditorFileIgnored(c: Checker, p: Path, isDir: bool)
    requires IsEditorFile(p)
    ensures Ignored(c, FileChangeEvent([p], isDir))
  {
    assert [p][0] == p;
  }

  /** The extension of `.something.swp` is `swp`. */
  lemma SwpExtension()
    ensures FileExtension(".something.swp") == Some("swp")
  {
    var name := ".something.swp";
    assert name[10] == '.';
    assert LastIndexOf(name, '.') == Some(10);
  }

  /** A file name with no `.` after its first character has no extension. */
  lemma NoDotNoExtension(dir: Path, name: string)
    requires IsComponentName(name)
    requires forall k :: 0 < k < |name| ==> name[k] != '.'
    ensures !HasSwapExtension(Join(dir, name))
  {
  }

  /** A path whose component after the root is not `.git` is not under `root/.git`. */
  lemma NotUnderGitDir(root: Path, name: string)
    requires IsComponentName(name)
    requires name != ".git"
    ensures !StartsWith(Join(root, name), GitDir(root))
  {
  }

  /** With no gitignore, `<root>/foo` is not ignored. */
  lemma PlainFileNotIgnoredWithoutGitignore(root: Path, isDir: bool)
    requires HashFree(root)
    ensures !Ignored(Checker(root, None), FileChangeEvent([Join(root, "foo")], isDir))
  {
    var p := Join(root, "foo");
    NotUnderGitDir(root, "foo");
    NoDotNoExtension(root, "foo");
    HashFreeRender(root, "foo");
    EmacsPattern.IsMatchIsRegexMatch(Render(p));
    assert !IsEditorFile(p);
    assert [p][0] == p;
  }

  /** `<root>/.git/config` is not an editor file when the root has no `#`. */
  lemma GitConfigNotEditorFile(root: Path)
    requires HashFree(root)
    ensures !IsEditorFile(Join(GitDir(root), "config"))
  {
    var gitDir := GitDir(root);
    NoDotNoExtension(gitDir, "config");
    JoinHashFree(root, ".git");
    HashFreeRender(gitDir, "config");
    EmacsPattern.IsMatchIsRegexMatch(Render(Join(gitDir, "config")));
  }

  /**
   * The `.git` rule and the editor rule are separate: an event with one path
   * of each kind, and no gitignore, is not ignored.
   */
  lemma MixedEventNotIgnored(root: Path, isDir: bool)
    requires HashFree(root)
    ensures !Ignored(Checker(root, None),
                     FileChangeEvent([Join(GitDir(root), "config"), Join(root, ".#x")], isDir))
  {
    var gitFile := Join(GitDir(root), "config");
    var lockFile := Join(root, ".#x");
    NotUnderGitDir(root, ".#x");
    GitConfigNotEditorFile(root);
    var paths := [gitFile, lockFile];
    assert paths[0] == gitFile && paths[1] == lockFile;
  }

  /** An event with no paths is ignored: every rule holds of no paths. */
  lemma EmptyEventIgnored(c: Checker, isDir: bool)
    ensures Ignored(c, FileChangeEvent([], isDir))
  {
  }

  /**
   * Once the `.git` and editor rules do not fire, a loaded gitignore without
   * `!` rules decides: the event is ignored exactly when every path has an
   * ancestor-or-self, at or below the gitignore's root, that a rule ignores.
   */
  lemma GitignoreDecides(c: Checker, e: FileChangeEvent)
    requires c.gitignore.Some? && NoWhitelist(c.gitignore.value)
    requires !AllUnderGitDir(c.root, e.paths) && !AllEditorFiles(e.paths)
    ensures Ignored(c, e) <==>
      forall i :: 0 <= i < |e.paths| ==> SomeAncestorIgnored(c.gitignore.value, e.paths[i], e.isDir)
  {
    AllGitignoredIffAncestors(c.gitignore.value, e.paths, e.isDir);
  }

  /** Without `!` rules, every path is gitignored exactly when each has an ignored ancestor-or-self. */
  lemma AllGitignoredIffAncestors(g: Matcher, paths: seq<Path>, isDir: bool)
    requires NoWhitelist(g)
    ensures AllGitignored(g, paths, isDir) <==>
      forall i :: 0 <= i < |paths| ==> SomeAncestorIgnored(g, paths[i], isDir)
  {
    forall i | 0 <= i < |paths|
      ensures Gitignored(g, isDir, paths[i]) <==> SomeAncestorIgnored(g, paths[i], isDir)
    {
      IgnoredIffSomeAncestorIgnored(g, paths[i], isDir);
    }
  }

  /** The rules of a `.gitignore` holding the single line `name`. */
  function NameRule(name: string): Rules
  {
    (q: Path, d: bool) =>
      if |q.components| > 0 && q.components[|q.components| - 1] == Normal(name)
      then Ignore else NoMatch
  }

  /** The rules of a `.gitignore` holding the single line `target/` followed by `**`. */
  function TargetGlobRule(): Rules
  {
    (q: Path, d: bool) =>
      if |q.components| >= 2 && q.components[0] == Normal("target") then Ignore else NoMatch
  }

  /** The path `<root>/target/debug/tcr.d`. */
  function TargetFile(root: Path): Path
  {
    Path(root.absolute, root.components + [Normal("target"), Normal("debug"), Normal("tcr.d")])
  }

  /** A one-path event whose path the loaded gitignore ignores is ignored. */
  lemma SingleGitignoredPathIgnored(c: Checker, p: Path, isDir: bool)
    requires c.gitignore.Some? && Gitignored(c.gitignore.value, isDir, p)
    ensures Ignored(c, FileChangeEvent([p], isDir))
  {
    assert [p][0] == p;
  }

  /** With the rule `bar`, `<root>/bar` is ignored. */
  lemma BarRuleIgnoresBar(root: Path, isDir: bool)
    ensures Ignored(Checker(root, Some(Matcher(root, NameRule("bar")))),
                    FileChangeEvent([Join(root, "bar")], isDir))
  {
    var g := Matcher(root, NameRule("bar"));
    var p := Join(root, "bar");
    assert UnderRoot(g, p);
    assert Relative(g, p, |p.components|).components == [Normal("bar")];
    assert Query(g, p, isDir, |p.components|) == Ignore;
  }

  /** With the rule `bar`, `<root>/foo` is not ignored. */
  lemma BarRuleKeepsFoo(root: Path, isDir: bool)
    requires HashFree(root)
    ensures !Ignored(Checker(root, Some(Matcher(root, NameRule("bar")))),
                     FileChangeEvent([Join(root, "foo")], isDir))
  {
    PlainFileNotIgnoredWithoutGitignore(root, isDir);
    BarRuleSkipsFoo(root, isDir);
  }

  /** No ancestor-or-self of `<root>/foo` at or below the root is named `bar`. */
  lemma BarRuleSkipsFoo(root: Path, isDir: bool)
    ensures !Gitignored(Matcher(root, NameRule("bar")), isDir, Join(root, "foo"))
  {
    var g := Matcher(root, NameRule("bar"));
    var p := Join(root, "foo");
    var n := |root.components|;
    RelativeUnderRoot(g, p, n);
    RelativeUnderRoot(g, p, n + 1);
    assert p.components[n..n + 1] == [Normal("foo")];
    assert forall j :: Floor(g, p) <= j <= |p.components| ==> Query(g, p, isDir, j) == NoMatch;
  }

  /** With the rule `target`, `<root>/target/debug/tcr.d` is ignored through its parent. */
  lemma TargetRuleIgnoresBuildOutput(root: Path)
    ensures Ignored(Checker(root, Some(Matcher(root, NameRule("target")))),
                    FileChangeEvent([TargetFile(root)], false))
  {
    var g := Matcher(root, NameRule("target"));
    TargetDirIgnored(root);
    SingleGitignoredPathIgnored(Checker(root, Some(g)), TargetFile(root), false);
  }

  /** The rule `target` applies to the ancestor `<root>/target`, a directory. */
  lemma TargetDirIgnored(root: Path)
    ensures Gitignored(Matcher(root, NameRule("target")), false, TargetFile(root))
  {
    var g := Matcher(root, NameRule("target"));
    var p := TargetFile(root);
    var n := |root.components|;
    RelativeUnderRoot(g, p, n + 1);
    assert p.components[n..n + 1] == [Normal("target")];
    assert Query(g, p, false, n + 1) == Ignore;
    IgnoredIffSomeAncestorIgnored(g, p, false);
  }

  /** With the glob rule under `target/`, `<root>/target/debug/tcr.d` is ignored directly. */
  lemma TargetGlobRuleIgnoresBuildOutput(root: Path)
    ensures Ignored(Checker(root, Some(Matcher(root, TargetGlobRule()))),
                    FileChangeEvent([TargetFile(root)], false))
  {
    var g := Matcher(root, TargetGlobRule());
    var p := TargetFile(root);
    var n := |root.components|;
    RelativeUnderRoot(g, p, n + 3);
    assert p.components[n..n + 3] == [Normal("target"), Normal("debug"), Normal("tcr.d")];
    assert Query(g, p, false, n + 3) == Ignore;
  }
}
