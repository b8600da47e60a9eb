# tcr: change-event noise filter and command-string parser, in Dafny

tcr is a "Test && Commit || Revert" daemon: it watches a source tree and, on
every relevant change, builds, tests, and then commits or reverts. This
project models the two pure pieces of logic that decide what tcr reacts to
and what it runs:

- **The noise filter** (`Checker` in `src/ignore.rs`). Given the watched root,
  an optional loaded `.gitignore` and a change event (a list of paths plus an
  `is_dir` flag), `is_ignored` suppresses the event when any one of three
  rules holds. Each rule must hold of *every* path in the event:
  1. the path lies under `root/.git`, compared component by component;
  2. the path is an editor scratch file: its extension starts with `sw`, or
     its string matches the regular expression `.*/*.#.*`;
  3. a gitignore is loaded and ignores the path or one of its parents.
- **The command-string parser** (`cmd_from_string` in `src/main.rs`). It splits
  a configured command line on ASCII whitespace. The first token is the
  program and the remaining tokens are its arguments. A string with no
  tokens is an error.

Modules, one concept each:

- `Wrappers` (`wrappers.dfy`): `Option` and `Result`.
- `Paths` (`paths.dfy`): paths as Rust's `Path::components` sees them (an
  absolute flag, then `.`, `..` and normal components). Also `join`,
  `starts_with`, `file_name`, `extension` (Rust's `rsplit_file_at_dot` rule),
  and the `/`-separated rendering that `to_str` yields.
- `EmacsPattern` (`emacs_pattern.dfy`): the language of `.*/*.#.*` under
  unanchored search, where `.` is any character but a newline. It also holds
  the scanning matcher, which is proved to accept exactly that language.
- `Gitignore` (`gitignore.dfy`): the matcher, kept abstract as a function
  from a root-relative path and a directory flag to the crate's three-valued
  `Match` (none, ignore, whitelist). It also models the walk
  `matched_path_or_any_parents` does from a path up through its parents.
- `Ignore` (`ignore.dfy`): the event, the checker, the editor-file test, the
  three-rule decision, and lemmas for the scenarios the source's tests pin.
- `CommandLine` (`command_line.dfy`): `split_ascii_whitespace`, written as
  `str::split` followed by dropping empty pieces; `cmd_from_string`; and the
  laws that fix the tokenizer: splitting at whitespace, padding and runs of
  whitespace, and the round trip through a single-space rendering.

The regular expression's language is wider than "a component starting with
`.#`". Any `#` that follows a character other than a newline qualifies. A `#`
at the start of a component after a directory qualifies too, because a `/`
comes before it (`HashAfterSlashIsEditorFile`). So `src/#notes` and
`src/a#b.rs` are both treated as editor files. The test runs on the whole
rendered path, the watched root included: under a root such as `/c#proj`,
every path at any depth is an editor file (`HashInRootHidesEverything`), so
every event whose paths all lie under the root is ignored
(`HashInRootIgnoresEveryEvent`).

## Model

| member | source | states |
|---|---|---|
| Paths.Join | src/ignore.rs:23 | for a name that is a single normal component, `base.join(name)` lies under `base`, has one more component, and its file name is `name` |
| Paths.StartsWith | src/ignore.rs:23 | `p.starts_with(base)` holds exactly when `p` is `base` followed by further whole components, or `base` is the empty relative path, which every path starts with |
| Paths.UnderJoin | src/ignore.rs:23 | being under `base/name` means having `base`'s root, being under `base`, and having a next component equal to `name` as a whole (so `.gitx` is not under `.git`) |
| Paths.FileName | src/ignore.rs:44 | a path has a file name exactly when its last component is a normal one; the path is then its parent joined with that name |
| Paths.FileExtension | src/ignore.rs:44-52 | a file name has an extension exactly when it is not `..` and has a `.` after its first character; the extension is the text after a `.`, and contains no `.` (so it is the text after the last one) |
| Paths.Extension | src/ignore.rs:44 | a path has an extension exactly when its file name is not `..` and has a `.` after its first character; the file name is then a non-empty stem, a `.`, and the extension, which has no `.` |
| Paths.RenderAppend | src/ignore.rs:54 | the string form of `base.join(c)` is that of `base`, a `/` unless `base` is empty, then `c` |
| Paths.RenderContainsComponent | src/ignore.rs:54 | every component's text appears whole inside the path's string form |
| Paths.NotInRender | src/ignore.rs:54 | a character other than `/` that no component contains does not occur in the path's string form |
| EmacsPattern.IsMatch | src/ignore.rs:54-57 | the matcher accepts a string exactly when some `#` at index 1 or later has a character other than a newline just before it |
| EmacsPattern.IsMatchIsRegexMatch | src/ignore.rs:12 | the scan accepts exactly the strings with a substring in the language of `.*/*.#.*` (both directions) |
| Gitignore.WalkUp | src/ignore.rs:34 | the walk up the parents finds no match exactly when no ancestor it asks has one; otherwise it returns the verdict of the nearest ancestor some rule applies to |
| Gitignore.Relative | src/ignore.rs:34 | for a path under the gitignore's root, the path handed to the rules is relative, and the root followed by it is the ancestor being asked about; any other path is handed over unchanged |
| Gitignore.MatchedPathOrAnyParents | src/ignore.rs:34 | no match means no rule applies to the path or any parent up to the gitignore's root; otherwise the nearest ancestor-or-self with a verdict decides, so a verdict on the path itself wins over the parents |
| Gitignore.IgnoredIffSomeAncestorIgnored | src/ignore.rs:29-35 | without `!` rules, "the path or any of its parents is ignored" holds exactly when some ancestor-or-self at or below the gitignore's root is ignored by a rule |
| Ignore.IsEditorFile | src/ignore.rs:43-58 | a path is an editor file exactly when its extension starts with `sw` or its rendering matches the editor-lock-file pattern; a path without an extension is decided by the pattern alone |
| Ignore.All | src/ignore.rs:23 | the short-circuiting `all` over the event's paths holds exactly when the predicate holds of every path |
| Ignore.IsIgnored | src/ignore.rs:21-39 | the rules tried in order decide the same as "all paths under `root/.git`, or all editor files, or a gitignore is loaded and ignores all of them" |
| Ignore.GitDirEventIgnored | src/ignore.rs:134-153 | a file under `root/.git` is ignored whatever gitignore is loaded, or none |
| Ignore.EmacsLockFileIgnored | src/ignore.rs:173-180 | `<root>/.#blah` is ignored with no gitignore loaded, for any root |
| Ignore.VimSwapFileIgnored | src/ignore.rs:183-190 | `<root>/.something.swp` is ignored with no gitignore loaded, for any root |
| Ignore.HashInFileNameIsEditorFile | src/ignore.rs:54-57 | any file name holding a `#` that follows some character other than a newline makes the path an editor file, in any directory |
| Ignore.HashAfterSlashIsEditorFile | src/ignore.rs:54-57 | a file name that starts with `#` inside some directory is an editor file, because the rendered `/` precedes the `#` |
| Ignore.HashInComponentIsEditorFile | src/ignore.rs:54-57 | a `#` after some character other than a newline in any component of a path makes the path an editor file |
| Ignore.HashInRootHidesEverything | src/ignore.rs:54-57 | such a `#` in any component of the watched root makes every path under that root, at any depth, an editor file |
| Ignore.HashInRootIgnoresEveryEvent | src/ignore.rs:26-28 | under such a root, every event whose paths all lie under the root is ignored, whatever gitignore is loaded |
| Ignore.HashProjectRootHidesEverything | src/ignore.rs:54-57 | every path under the root `/c#proj` is an editor file |
| Ignore.PlainFileNotIgnoredWithoutGitignore | src/ignore.rs:83-89 | with no gitignore, `<root>/foo` is not ignored (for a root without `#`) |
| Ignore.MixedEventNotIgnored | src/ignore.rs:23-28 | the `.git` rule and the editor rule are separate all-quantifiers: one `.git` file plus one lock file, with no gitignore, is not ignored |
| Ignore.EmptyEventIgnored | src/ignore.rs:23-24 | an event with no paths is ignored, since every rule holds vacuously |
| Ignore.AllGitignoredIffAncestors | src/ignore.rs:32-34 | without `!` rules, every path is gitignored exactly when each has an ignored ancestor-or-self |
| Ignore.GitignoreDecides | src/ignore.rs:29-35 | once the `.git` and editor rules fail, a loaded gitignore without `!` rules decides: the event is ignored exactly when every path has an ignored ancestor-or-self |
| Ignore.BarRuleIgnoresBar | src/ignore.rs:113-131 | with the rule `bar`, `<root>/bar` is ignored; no file needs to exist |
| Ignore.BarRuleKeepsFoo | src/ignore.rs:92-110 | with the rule `bar`, `<root>/foo` is not ignored (for a root without `#`) |
| Ignore.TargetRuleIgnoresBuildOutput | src/ignore.rs:220-244 | with the rule `target`, `<root>/target/debug/tcr.d` is ignored through its parent directory |
| Ignore.TargetGlobRuleIgnoresBuildOutput | src/ignore.rs:193-217 | with the rule `target/**`, `<root>/target/debug/tcr.d` is ignored by the path itself |
| CommandLine.Split | src/main.rs:24 | splitting on ASCII whitespace yields at least one piece, and no piece contains whitespace |
| CommandLine.Tokens | src/main.rs:24 | every token is non-empty and free of ASCII whitespace |
| CommandLine.SplitAtWhitespace | src/main.rs:24 | splitting a string at a whitespace character yields the pieces of the two sides, concatenated |
| CommandLine.TokensAtWhitespace | src/main.rs:24 | tokenizing `a + [c] + b` for a whitespace character `c` gives the tokens of `a` followed by those of `b` |
| CommandLine.TokensOfToken | src/main.rs:24 | a non-empty string without whitespace is a single token |
| CommandLine.TokensEmptyIffWhitespace | src/main.rs:28-36 | a string has no tokens exactly when it is empty or all ASCII whitespace |
| CommandLine.PaddingIgnored | src/main.rs:24 | leading and trailing whitespace do not change the tokens |
| CommandLine.RepeatedWhitespaceIgnored | src/main.rs:24 | a run of whitespace separates tokens just as one space does |
| CommandLine.TokensOfJoin | src/main.rs:24 | tokens joined with single spaces tokenize back to the same list |
| CommandLine.CmdFromString | src/main.rs:23-43 | the result is an error (with the source's message) exactly when the string is all whitespace; otherwise the program and each argument are tokens, and the program followed by the arguments is the token list |
| CommandLine.FirstRun | src/main.rs:28 | a string that is not all whitespace has a first token: leading whitespace, then a maximal run of non-whitespace |
| CommandLine.TokensAfterFirstRun | src/main.rs:39-40 | the tokens are that first run followed by the tokens of the rest of the string |
| CommandLine.ProgramIsFirstToken | src/main.rs:28-42 | the program is the first maximal non-whitespace run after the leading whitespace, and the arguments are the tokens of everything after it |
| CommandLine.ParseCommandLineOf | src/main.rs:23-43 | a command whose program and arguments are tokens, printed with single spaces, parses back to itself |
| CommandLine.ReparseIsIdentity | src/main.rs:23-43 | printing a parsed command and parsing the result gives the same command |
| CommandLine.PaddedCommandUnchanged | src/main.rs:23-43 | surrounding a command string with whitespace does not change the parsed command |
| CommandLine.OneArgument | src/main.rs:23-43 | a program token, one whitespace character and an argument token parse to that program with that single argument |
| CommandLine.ListExample | src/main.rs:186-188 | `"ls -al"` parses to program `ls` with the single argument `-al` |
| CommandLine.EmptyStringRejected | src/main.rs:190 | the empty string is rejected with the source's error message |

## Left out

- `Checker::new` (src/ignore.rs:11-18) is just the `Checker` datatype constructor. The regular expression it compiles is the fixed language of module `EmacsPattern`, so the constructor has no contract of its own.
- `is_ignored` takes `&mut self` but changes nothing. In the model it is a pure function of the checker's fields and the event, with no filesystem parameter. So "the fields are unchanged" and "the answer does not depend on whether the file exists" hold by construction, and no lemma states them.
- The glob semantics of gitignore rules (the `ignore` crate) are not modelled: a matcher is an arbitrary function. The `bar`, `target` and `target/**` rules in the lemmas are written out by hand as such functions.
- The matcher's walk follows the crate's `matched_path_or_any_parents`: the path is queried with the event's directory flag, and proper ancestors are queried as directories. A gitignore's root counts as enclosing a path only when both are absolute or both relative. The crate's special cases for a leading `./`, a bare file name and a root of `.` are not modelled.
- Gitignore.MatchedPathOrAnyParents: the crate strips the gitignore's root as a byte prefix of the path string, not component by component. With root `/r/x`, the path `/r/xy/f` is matched there as `y/f`. The model compares components, so it treats that path as outside the root and asks the rules about its full ancestors. For an absolute path that is not under the root even as a byte prefix, the crate's assertion that the stripped path has no root panics; the model returns a verdict instead. tcr can reach the panicking case: the gitignore is rooted at the working directory (src/main.rs:77-81), while the watched tree is the `--root` argument (src/main.rs:145-147, 161). For a gitignore rooted at the empty relative path, the crate strips nothing, drops a leading `/` and so asks about `a/b`, `a` and the empty path for `/a/b` without panicking, while the model asks about the absolute ancestors; tcr's gitignore root is the absolute working directory, so it never meets this case.
- Gitignore.Relative: for an absolute path outside the gitignore's root it returns the absolute ancestor unchanged, where the crate panics.
- Non-UTF-8 paths are not modelled. In the source, `to_str` returns `None` for them and the regex rule then fails, while `e.to_str().unwrap()` panics on a non-UTF-8 extension. Dafny strings always have a text form.
- Path rendering uses the canonical form of the components. A path string with redundant separators or `./` segments matches the pattern exactly when its canonical form does, but this is argued here, not proved.
- Windows path prefixes are not modelled.
- `CmdRunner::run` (src/main.rs:49-53) runs a subprocess; `Command` here records only the program and arguments handed to `std::process::Command`.
- `watch_and_run`, `get_path`, `get_config` and `main` (src/main.rs:55-173) are not modelled. They are filesystem watching, channels, configuration loading and command-line parsing: I/O and glue.
- The build → test → commit/revert pipeline and the debouncer are not part of this model, because the code has neither. src/orchestrator.rs only defines a `handle_event` that prints the event, and the debouncer exists only as the TODO at src/main.rs:59. `src/log.rs` and `src/runner.rs` hold no logic.
