/**
 * Filesystem paths as Rust's `std::path::Path` sees them after splitting
 * into components: an optional root directory followed by a sequence of
 * current-directory, parent-directory and normal components.
 */
module Paths {
  import opened Wrappers

  /** One component of a path, as yielded by `Path::components`. */
  datatype Component = CurDir | ParentDir | Normal(name: string)

  /** A path: `absolute` holds when it starts at the root directory. */
  datatype Path = Path(absolute: bool, components: seq<Component>)

  /** The text of a single component. */
  function ComponentText(c: Component): string
  {
    match c
    case CurDir => "."
    case ParentDir => ".."
    case Normal(n) => n
  }

  /** The components joined with `/`. */
  function JoinComponents(cs: seq<Component>): string
  {
    if |cs| == 0 then ""
    else if |cs| == 1 then ComponentText(cs[0])
    else JoinComponents(cs[..|cs| - 1]) + "/" + ComponentText(cs[|cs| - 1])
  }

  /** The canonical string form of a path, what `Path::to_str` yields for it. */
  function Render(p: Path): string
  {
    (if p.absolute then "/" else "") + JoinComponents(p.components)
  }

  /**
   * A name `Path::components` can yield as a normal component: non-empty,
   * without a `/`, and neither `.` nor `..`.
   */
  predicate IsComponentName(name: string)
  {
    name != "" && name != "." && name != ".." && '/' !in name
  }

  /** `base.join(name)` for a relative, single-component `name`. */
  function Join(base: Path, name: string): (r: Path)
    requires IsComponentName(name)
    ensures StartsWith(r, base) && |r.components| == |base.components| + 1
    ensures FileName(r) == Some(name)
  {
    Path(base.absolute, base.components + [Normal(name)])
  }

  /**
   * `Path::starts_with`, compared whole component by component: `p` is `base`
   * followed by more components. The empty relative path has no components
   * at all, so every path starts with it, absolute or not.
   */
  function StartsWith(p: Path, base: Path): (r: bool)
    ensures r <==> base == Path(false, []) || exists rest :: p == Path(base.absolute, base.components + rest)
  {
    if base == Path(false, []) then true
    else if p.absolute == base.absolute && base.components <= p.components then
      assert p == Path(base.absolute, base.components + p.components[|base.components|..]);
      true
    else false
  }

  /**
   * Being under `base/name` means having the same root as `base`, being
   * under it, and having `name` as the very next component: `name` must
   * equal that whole component, not a prefix of it.
   */
  lemma UnderJoin(p: Path, base: Path, name: string)
    requires IsComponentName(name)
    ensures StartsWith(p, Join(base, name)) <==>
      p.absolute == base.absolute && StartsWith(p, base) && |p.components| > |base.components|
      && p.components[|base.components|] == Normal(name)
  {
    var j := Join(base, name);
    assert j.components == base.components + [Normal(name)];
    if p.absolute == base.absolute && StartsWith(p, base) && |p.components| > |base.components|
       && p.components[|base.components|] == Normal(name) {
      assert p.components[..|j.components|] == j.components;
    }
  }

  /** The ancestor of `p` made of its first `k` components. */
  function Ancestor(p: Path, k: nat): (r: Path)
    requires k <= |p.components|
    ensures StartsWith(p, r)
    ensures |r.components| == k
  {
    Path(p.absolute, p.components[..k])
  }

  /**
   * `Path::file_name`: the last component when it is a normal one; there is
   * none for the root, the empty path, `.`, or a path ending in `..` (a `.`
   * after the first component is not a component at all).
   */
  function FileName(p: Path): (r: Option<string>)
    ensures r.Some? ==> |p.components| > 0
                        && p == Path(p.absolute, Ancestor(p, |p.components| - 1).components + [Normal(r.value)])
    ensures r.None? ==> |p.components| == 0 || !p.components[|p.components| - 1].Normal?
  {
    if |p.components| > 0 && p.components[|p.components| - 1].Normal?
    then Some(p.components[|p.components| - 1].name)
    else None
  }

  /** Every index of `s` past `k` holds something other than `c`. */
  predicate NoneAfter(s: string, c: char, k: int)
  {
    forall i :: 0 <= i < |s| && k < i ==> s[i] != c
  }

  /** The index of the last occurrence of `c` in `s`, if any. */
  function LastIndexOf(s: string, c: char): (r: Option<nat>)
    ensures r.None? <==> NoneAfter(s, c, -1)
    ensures r.Some? ==> r.value < |s| && s[r.value] == c && NoneAfter(s, c, r.value)
  {
    if |s| == 0 then None
    else if s[|s| - 1] == c then Some(|s| - 1)
    else LastIndexOf(s[..|s| - 1], c)
  }

  /**
   * The extension of a file name, after Rust's `rsplit_file_at_dot`: the
   * text after the last `.`, unless the name is `..`, has no `.`, or its
   * last `.` is its first character (as in `.bashrc`).
   */
  function FileExtension(name: string): (r: Option<string>)
    ensures r.Some? <==> name != ".." && exists k :: 0 < k < |name| && name[k] == '.'
    ensures r.Some? ==> exists k :: 0 < k < |name| && name[k] == '.' && r.value == name[k + 1..]
    ensures r.Some? ==> '.' !in r.value
    ensures r.Some? ==> |r.value| + 1 < |name|
                        && name == name[..|name| - |r.value| - 1] + "." + r.value
  {
    if name == ".." then None
    else
      match LastIndexOf(name, '.')
      case None => None
      case Some(k) =>
        if k == 0 then None
        else
          assert name == name[..k] + "." + name[k + 1..];
          Some(name[k + 1..])
  }

  /**
   * `Path::extension`: the text after the last `.` of the file name. There is
   * one exactly when the path has a file name with a `.` after its first
   * character; the file name is then a non-empty stem, a `.`, and the extension.
   */
  function Extension(p: Path): (r: Option<string>)
    ensures r.Some? <==> FileName(p).Some? && FileName(p).value != ".."
                         && exists k :: 0 < k < |FileName(p).value| && FileName(p).value[k] == '.'
    ensures r.Some? ==> '.' !in r.value
    ensures r.Some? ==> exists stem :: stem != "" && FileName(p) == Some(stem + "." + r.value)
  {
    match FileName(p)
    case None => None
    case Some(n) =>
      var e := FileExtension(n);
      if e.Some? then
        var stem := n[..|n| - |e.value| - 1];
        assert stem != "" && n == stem + "." + e.value;
        e
      else e
  }

  /** Rendering a path with one more component appends that component's text. */
  lemma RenderAppend(p: Path, c: Component)
    ensures Render(Path(p.absolute, p.components + [c]))
            == Render(p) + (if |p.components| == 0 then "" else "/") + ComponentText(c)
  {
    var cs := p.components + [c];
    assert cs[..|cs| - 1] == p.components;
  }

  /** A character other than `/` occurs in a rendered path only inside a component. */
  lemma {:induction false} NotInRender(p: Path, ch: char)
    requires ch != '/'
    requires forall k :: 0 <= k < |p.components| ==> ch !in ComponentText(p.components[k])
    ensures ch !in Render(p)
    decreases |p.components|
  {
    var cs := p.components;
    if |cs| > 0 {
      var init := Path(p.absolute, cs[..|cs| - 1]);
      NotInRender(init, ch);
      assert init.components + [cs[|cs| - 1]] == cs;
      RenderAppend(init, cs[|cs| - 1]);
    }
  }

  /** Every component's text appears whole in the rendered path. */
  lemma {:induction false} RenderContainsComponent(p: Path, k: nat) returns (u: string, v: string)
    requires k < |p.components|
    ensures Render(p) == u + ComponentText(p.components[k]) + v
    decreases |p.components|
  {
    var cs := p.components;
    var init := Path(p.absolute, cs[..|cs| - 1]);
    assert init.components + [cs[|cs| - 1]] == cs;
    RenderAppend(init, cs[|cs| - 1]);
    var sep := if |init.components| == 0 then "" else "/";
    if k == |cs| - 1 {
      u, v := Render(init) + sep, "";
    } else {
      var u', v' := RenderContainsComponent(init, k);
      assert init.components[k] == cs[k];
      u, v := u', v' + sep + ComponentText(cs[|cs| - 1]);
    }
  }
}
