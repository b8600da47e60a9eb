/**
 * The gitignore matcher, kept abstract: its glob semantics are those of an
 * external crate. Modelled are only the parts the noise filter relies on:
 * paths are matched relative to the directory holding the `.gitignore`, and
 * `matched_path_or_any_parents` walks from a path up through its parents,
 * never above that directory, until some rule applies.
 */
module Gitignore {
  import opened Paths

  /** The crate's `Match`: no rule applies, an ignore rule, or a `!` rule. */
  datatype Verdict = NoMatch | Ignore | Whitelist

  /**
   * The verdict of the loaded rules for one path (relative to the gitignore's
   * root) and its directory flag.
   */
  type Rules = (Path, bool) -> Verdict

  /** A loaded `.gitignore`: the directory it applies to and its rules. */
  datatype Matcher = Matcher(root: Path, rules: Rules)

  /**
   * `p` lies under the gitignore's root: same root directory, and the root's
   * components come first.
   */
  predicate UnderRoot(g: Matcher, p: Path)
  {
    p.absolute == g.root.absolute && StartsWith(p, g.root)
  }

  /**
   * The fewest components an ancestor of `p` may have and still be asked:
   * the gitignore's root when `p` lies under it, otherwise none.
   */
  function Floor(g: Matcher, p: Path): (r: nat)
    ensures r <= |p.components|
  {
    if UnderRoot(g, p) then |g.root.components| else 0
  }

  /**
   * The ancestor of `p` with `k` components as the rules see it: with the
   * gitignore's root stripped off when `p` lies under it.
   */
  function Relative(g: Matcher, p: Path, k: nat): (r: Path)
    requires Floor(g, p) <= k <= |p.components|
    ensures UnderRoot(g, p) ==>
      !r.absolute && Path(g.root.absolute, g.root.components + r.components) == Ancestor(p, k)
    ensures !UnderRoot(g, p) ==> r == Ancestor(p, k)
  {
    if UnderRoot(g, p) then
      var n := |g.root.components|;
      assert g.root.components == p.components[..n];
      assert p.components[..n] + p.components[n..k] == p.components[..k];
      Path(false, p.components[n..k])
    else Ancestor(p, k)
  }

  /** Under the root, the relative path is the components between the root and the ancestor. */
  lemma RelativeUnderRoot(g: Matcher, p: Path, k: nat)
    requires UnderRoot(g, p) && |g.root.components| <= k <= |p.components|
    ensures Relative(g, p, k) == Path(false, p.components[|g.root.components|..k])
  {
  }

  /**
   * The question put to the rules for the ancestor with `k` components: the
   * path itself is asked with the event's directory flag, every proper
   * ancestor as a directory.
   */
  function Query(g: Matcher, p: Path, isDir: bool, k: nat): Verdict
    requires Floor(g, p) <= k <= |p.components|
  {
    g.rules(Relative(g, p, k), if k == |p.components| then isDir else true)
  }

  /**
   * Asks the ancestors with `k`, `k - 1`, ... components in turn, down to the
   * floor; the first one some rule applies to decides.
   */
  function WalkUp(g: Matcher, p: Path, isDir: bool, k: nat): (r: Verdict)
    requires Floor(g, p) <= k <= |p.components|
    ensures r == NoMatch <==>
      forall j :: Floor(g, p) <= j <= k ==> Query(g, p, isDir, j) == NoMatch
    ensures r != NoMatch ==>
      exists j :: Floor(g, p) <= j <= k && Query(g, p, isDir, j) == r
                  && forall i :: j < i <= k ==> Query(g, p, isDir, i) == NoMatch
    decreases k
  {
    var v := Query(g, p, isDir, k);
    if v != NoMatch then v
    else if k == Floor(g, p) then NoMatch
    else WalkUp(g, p, isDir, k - 1)
  }

  /** `Gitignore::matched_path_or_any_parents`. */
  function MatchedPathOrAnyParents(g: Matcher, p: Path, isDir: bool): (r: Verdict)
    ensures r == NoMatch <==>
      forall j :: Floor(g, p) <= j <= |p.components| ==> Query(g, p, isDir, j) == NoMatch
    ensures Query(g, p, isDir, |p.components|) != NoMatch ==>
      r == Query(g, p, isDir, |p.components|)
    ensures r != NoMatch ==>
      exists j :: Floor(g, p) <= j <= |p.components| && Query(g, p, isDir, j) == r
                  && forall i :: j < i <= |p.components| ==> Query(g, p, isDir, i) == NoMatch
  {
    WalkUp(g, p, isDir, |p.components|)
  }

  /** `Match::is_ignore`. */
  predicate IsIgnore(v: Verdict)
  {
    v == Ignore
  }

  /** The rules never answer with a `!` (whitelist) verdict. */
  ghost predicate NoWhitelist(g: Matcher)
  {
    forall q, d :: g.rules(q, d) != Whitelist
  }

  /** Some ancestor-or-self of `p`, at or below the gitignore's root, is ignored by a rule. */
  ghost predicate SomeAncestorIgnored(g: Matcher, p: Path, isDir: bool)
  {
    exists j :: Floor(g, p) <= j <= |p.components| && Query(g, p, isDir, j) == Ignore
  }

  /**
   * Without whitelist rules, "the path or any of its parents" is an
   * existential: the path is ignored exactly when some ancestor-or-self at
   * or below the gitignore's root is.
   */
  lemma {:induction false} IgnoredIffSomeAncestorIgnored(g: Matcher, p: Path, isDir: bool)
    requires NoWhitelist(g)
    ensures IsIgnore(MatchedPathOrAnyParents(g, p, isDir)) <==> SomeAncestorIgnored(g, p, isDir)
  {
    var r := MatchedPathOrAnyParents(g, p, isDir);
    if j :| Floor(g, p) <= j <= |p.components| && Query(g, p, isDir, j) == Ignore {
      assert r != NoMatch;
      assert r != Whitelist;
    }
  }
}
