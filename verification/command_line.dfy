/**
 * Turning a configured command string into a program and its arguments:
 * the string is split on ASCII whitespace (`str::split_ascii_whitespace`),
 * the first token names the program and the rest are its arguments.
 */
module CommandLine {
  import opened Wrappers

  /**
   * Rust's `u8::is_ascii_whitespace`: space, tab, line feed, form feed and
   * carriage return (but not the vertical tab).
   */
  predicate IsAsciiWhitespace(c: char)
  {
    c == ' ' || c == '\t' || c == '\n' || c == 12 as char || c == '\r'
  }

  /** Every character is ASCII whitespace (vacuously so for the empty string). */
  predicate AllWhitespace(s: string)
  {
    forall i :: 0 <= i < |s| ==> IsAsciiWhitespace(s[i])
  }

  /** No character is ASCII whitespace. */
  predicate NoWhitespace(s: string)
  {
    forall i :: 0 <= i < |s| ==> !IsAsciiWhitespace(s[i])
  }

  /** A token: a non-empty run of characters other than ASCII whitespace. */
  predicate IsToken(t: string)
  {
    |t| > 0 && NoWhitespace(t)
  }

  /**
   * `str::split` on ASCII whitespace: the pieces between separators, empty
   * ones included (two adjacent separators enclose an empty piece).
   */
  function Split(s: string): (r: seq<string>)
    ensures |r| >= 1
    ensures forall k :: 0 <= k < |r| ==> NoWhitespace(r[k])
  {
    if |s| == 0 then [""]
    else
      var init := Split(s[..|s| - 1]);
      var c := s[|s| - 1];
      if IsAsciiWhitespace(c) then init + [""]
      else
        var last := init[|init| - 1] + [c];
        assert NoWhitespace(last) by {
          assert forall i :: 0 <= i < |last| - 1 ==> last[i] == init[|init| - 1][i];
        }
        init[..|init| - 1] + [last]
  }

  /** The non-empty strings of `xs`, in order. */
  function NonEmpty(xs: seq<string>): (r: seq<string>)
    ensures |r| <= |xs|
    ensures forall k :: 0 <= k < |r| ==> r[k] != "" && r[k] in xs
  {
    if |xs| == 0 then []
    else
      var init := xs[..|xs| - 1];
      var rest := NonEmpty(init);
      assert forall x :: x in init ==> x in xs;
      rest + (if xs[|xs| - 1] == "" then [] else [xs[|xs| - 1]])
  }

  /** `str::split_ascii_whitespace`: the whitespace-delimited tokens of `s`, in order. */
  function Tokens(s: string): (r: seq<string>)
    ensures forall k :: 0 <= k < |r| ==> IsToken(r[k])
  {
    var pieces := Split(s);
    var r := NonEmpty(pieces);
    assert forall k :: 0 <= k < |r| ==> r[k] in pieces;
    r
  }

  /** The program to run and its arguments (`std::process::Command`'s inputs). */
  datatype Command = Command(program: string, args: seq<string>)

  /** The error `cmd_from_string` reports for a string with no tokens. */
  const EmptyCommandError: string := "Expected cmd to not be empty"

  /** All the tokens of a command: the program followed by its arguments. */
  function CommandTokens(cmd: Command): seq<string>
  {
    [cmd.program] + cmd.args
  }

  /**
   * `cmd_from_string`: an error for a string without tokens, otherwise the
   * first token as the program and the remaining ones as its arguments.
   */
  function CmdFromString(s: string): (r: Result<Command, string>)
    ensures r.Err? <==> AllWhitespace(s)
    ensures r.Err? ==> r.error == EmptyCommandError
    ensures r.Ok? ==> IsToken(r.value.program)
    ensures r.Ok? ==> forall k :: 0 <= k < |r.value.args| ==> IsToken(r.value.args[k])
    ensures r.Ok? ==> CommandTokens(r.value) == Tokens(s)
  {
    TokensEmptyIffWhitespace(s);
    var toks := Tokens(s);
    if |toks| == 0 then Err(EmptyCommandError)
    else
      assert [toks[0]] + toks[1..] == toks;
      Ok(Command(toks[0], toks[1..]))
  }

  /** Appending a non-empty string to the input of `NonEmpty` appends it to the output. */
  lemma NonEmptyAppend(xs: seq<string>, x: string)
    ensures NonEmpty(xs + [x]) == NonEmpty(xs) + (if x == "" then [] else [x])
  {
    assert (xs + [x])[..|xs|] == xs;
  }

  /** `NonEmpty` distributes over concatenation. */
  lemma {:induction false} NonEmptyConcat(xs: seq<string>, ys: seq<string>)
    ensures NonEmpty(xs + ys) == NonEmpty(xs) + NonEmpty(ys)
    decreases |ys|
  {
    if |ys| == 0 {
      assert xs + ys == xs;
    } else {
      var init := ys[..|ys| - 1];
      var y := ys[|ys| - 1];
      assert xs + ys == (xs + init) + [y];
      assert ys == init + [y];
      NonEmptyConcat(xs, init);
      NonEmptyAppend(xs + init, y);
      NonEmptyAppend(init, y);
    }
  }

  /** Appending one character to the input of `Split` extends its last piece or starts a new one. */
  lemma SplitAppend(s: string, d: char)
    ensures IsAsciiWhitespace(d) ==> Split(s + [d]) == Split(s) + [""]
    ensures !IsAsciiWhitespace(d) ==>
      Split(s + [d]) == Split(s)[..|Split(s)| - 1] + [Split(s)[|Split(s)| - 1] + [d]]
  {
    assert (s + [d])[..|s + [d]| - 1] == s;
  }

  /** Extending the last piece of `x + y` extends the last piece of `y`. */
  lemma ExtendLastPiece(x: seq<string>, y: seq<string>, d: char)
    requires |y| >= 1
    ensures (x + y)[..|x + y| - 1] + [(x + y)[|x + y| - 1] + [d]]
            == x + (y[..|y| - 1] + [y[|y| - 1] + [d]])
  {
    var xy := x + y;
    assert xy[..|xy| - 1] == x + y[..|y| - 1];
  }

  /** Splitting at a whitespace character splits the input into two independent halves. */
  lemma {:induction false} SplitAtWhitespace(a: string, c: char, b: string)
    requires IsAsciiWhitespace(c)
    ensures Split(a + [c] + b) == Split(a) + Split(b)
    decreases |b|
  {
    if |b| == 0 {
      assert a + [c] + b == a + [c];
      SplitAppend(a, c);
    } else {
      var b' := b[..|b| - 1];
      var d := b[|b| - 1];
      var s' := a + [c] + b';
      assert a + [c] + b == s' + [d];
      assert b == b' + [d];
      SplitAtWhitespace(a, c, b');
      SplitAppend(s', d);
      SplitAppend(b', d);
      var x := Split(a);
      var y := Split(b');
      var xy := Split(s');
      assert xy == x + y;
      if IsAsciiWhitespace(d) {
        calc {
          Split(s' + [d]);
          xy + [""];
          x + (y + [""]);
          x + Split(b' + [d]);
        }
      } else {
        ExtendLastPiece(x, y, d);
        calc {
          Split(s' + [d]);
          xy[..|xy| - 1] + [xy[|xy| - 1] + [d]];
          x + (y[..|y| - 1] + [y[|y| - 1] + [d]]);
          x + Split(b' + [d]);
        }
      }
    }
  }

  /** A string without whitespace is a single piece. */
  lemma {:induction false} SplitNoWhitespace(t: string)
    requires NoWhitespace(t)
    ensures Split(t) == [t]
    decreases |t|
  {
    if |t| > 0 {
      var init := t[..|t| - 1];
      SplitNoWhitespace(init);
      assert init + [t[|t| - 1]] == t;
    }
  }

  /** Tokenizing splits at any whitespace character. */
  lemma TokensAtWhitespace(a: string, c: char, b: string)
    requires IsAsciiWhitespace(c)
    ensures Tokens(a + [c] + b) == Tokens(a) + Tokens(b)
  {
    SplitAtWhitespace(a, c, b);
    NonEmptyConcat(Split(a), Split(b));
  }

  /** A token on its own tokenizes to itself. */
  lemma TokensOfToken(t: string)
    requires IsToken(t)
    ensures Tokens(t) == [t]
  {
    SplitNoWhitespace(t);
    NonEmptyAppend([], t);
    assert [] + [t] == [t];
  }

  /** A string has no tokens exactly when it is all whitespace. */
  lemma {:induction false} TokensEmptyIffWhitespace(s: string)
    ensures Tokens(s) == [] <==> AllWhitespace(s)
    decreases |s|
  {
    if |s| > 0 {
      var init := s[..|s| - 1];
      var d := s[|s| - 1];
      TokensEmptyIffWhitespace(init);
      assert s == init + [d];
      if IsAsciiWhitespace(d) {
        TokensAppendWhitespace(init, d);
        assert AllWhitespace(s) <==> AllWhitespace(init);
      } else {
        TokensAppendToken(init, d);
      }
    }
  }

  /** A trailing whitespace character adds no token. */
  lemma TokensAppendWhitespace(s: string, d: char)
    requires IsAsciiWhitespace(d)
    ensures Tokens(s + [d]) == Tokens(s)
  {
    SplitAppend(s, d);
    NonEmptyAppend(Split(s), "");
  }

  /** A trailing character other than whitespace leaves at least one token. */
  lemma TokensAppendToken(s: string, d: char)
    requires !IsAsciiWhitespace(d)
    ensures Tokens(s + [d]) != []
  {
    SplitAppend(s, d);
    var pieces := Split(s);
    var last := pieces[|pieces| - 1] + [d];
    NonEmptyAppend(pieces[..|pieces| - 1], last);
  }

  /** Leading and trailing whitespace does not change the tokens. */
  lemma PaddingIgnored(w1: string, s: string, w2: string)
    requires AllWhitespace(w1) && AllWhitespace(w2)
    ensures Tokens(w1 + s + w2) == Tokens(s)
  {
    if |w2| > 0 {
      assert s + w2 == s + [w2[0]] + w2[1..];
      TokensAtWhitespace(s, w2[0], w2[1..]);
      TokensEmptyIffWhitespace(w2[1..]);
    } else {
      assert s + w2 == s;
    }
    assert w1 + s + w2 == w1 + (s + w2);
    if |w1| > 0 {
      var w1' := w1[..|w1| - 1];
      assert w1 + (s + w2) == w1' + [w1[|w1| - 1]] + (s + w2);
      TokensAtWhitespace(w1', w1[|w1| - 1], s + w2);
      TokensEmptyIffWhitespace(w1');
    } else {
      assert w1 + (s + w2) == s + w2;
    }
  }

  /** A run of whitespace separates tokens just as a single space does. */
  lemma RepeatedWhitespaceIgnored(a: string, w: string, b: string)
    requires |w| > 0 && AllWhitespace(w)
    ensures Tokens(a + w + b) == Tokens(a + " " + b)
  {
    assert a + w + b == a + [w[0]] + (w[1..] + b);
    TokensAtWhitespace(a, w[0], w[1..] + b);
    PaddingIgnored(w[1..], b, "");
    assert w[1..] + b + "" == w[1..] + b;
    assert a + " " + b == a + [' '] + b;
    TokensAtWhitespace(a, ' ', b);
  }

  /** Tokens joined with single spaces. */
  function JoinWithSpaces(ts: seq<string>): string
  {
    if |ts| == 0 then ""
    else if |ts| == 1 then ts[0]
    else JoinWithSpaces(ts[..|ts| - 1]) + " " + ts[|ts| - 1]
  }

  /** Joining tokens with spaces and tokenizing again gives the same tokens back. */
  lemma {:induction false} TokensOfJoin(ts: seq<string>)
    requires forall k :: 0 <= k < |ts| ==> IsToken(ts[k])
    ensures Tokens(JoinWithSpaces(ts)) == ts
    decreases |ts|
  {
    if |ts| == 0 {
    } else if |ts| == 1 {
      TokensOfToken(ts[0]);
    } else {
      var init := ts[..|ts| - 1];
      var last := ts[|ts| - 1];
      TokensOfJoin(init);
      assert JoinWithSpaces(ts) == JoinWithSpaces(init) + [' '] + last;
      TokensAtWhitespace(JoinWithSpaces(init), ' ', last);
      TokensOfToken(last);
      assert init + [last] == ts;
    }
  }

  /** A command whose program and arguments are all tokens. */
  predicate WellFormed(cmd: Command)
  {
    IsToken(cmd.program) && forall k :: 0 <= k < |cmd.args| ==> IsToken(cmd.args[k])
  }

  /** The command line of a command: program and arguments separated by single spaces. */
  function CommandLineOf(cmd: Command): string
  {
    JoinWithSpaces(CommandTokens(cmd))
  }

  /** Parsing the command line of a well-formed command gives that command back. */
  lemma ParseCommandLineOf(cmd: Command)
    requires WellFormed(cmd)
    ensures CmdFromString(CommandLineOf(cmd)) == Ok(cmd)
  {
    var ts := CommandTokens(cmd);
    assert forall k :: 0 <= k < |ts| ==> IsToken(ts[k]) by {
      forall k | 0 <= k < |ts| ensures IsToken(ts[k]) {
        if k > 0 {
          assert ts[k] == cmd.args[k - 1];
        }
      }
    }
    TokensOfJoin(ts);
    var r := CmdFromString(CommandLineOf(cmd));
    assert r.Ok? ==> CommandTokens(r.value) == ts;
    assert CommandTokens(r.value)[1..] == r.value.args;
    assert ts[1..] == cmd.args;
  }

  /**
   * Printing a parsed command and parsing it again changes nothing: leading,
   * trailing and repeated whitespace of the original are irrelevant.
   */
  lemma ReparseIsIdentity(s: string)
    requires CmdFromString(s).Ok?
    ensures CmdFromString(CommandLineOf(CmdFromString(s).value)) == CmdFromString(s)
  {
    ParseCommandLineOf(CmdFromString(s).value);
  }

  /** Surrounding a command string with whitespace does not change the command. */
  lemma PaddedCommandUnchanged(w1: string, s: string, w2: string)
    requires AllWhitespace(w1) && AllWhitespace(w2)
    ensures CmdFromString(w1 + s + w2) == CmdFromString(s)
  {
    PaddingIgnored(w1, s, w2);
    var r1 := CmdFromString(w1 + s + w2);
    var r2 := CmdFromString(s);
    if r1.Ok? && r2.Ok? {
      assert CommandTokens(r1.value) == CommandTokens(r2.value);
      assert r1.value.program == CommandTokens(r1.value)[0];
      assert r1.value.args == CommandTokens(r1.value)[1..];
      assert r2.value.args == CommandTokens(r2.value)[1..];
    }
  }

  /** `"ls -al"` runs `ls` with the single argument `-al`. */
  lemma ListExample()
    ensures CmdFromString("ls -al") == Ok(Command("ls", ["-al"]))
  {
    var program, arg := "ls", "-al";
    assert "ls -al" == program + [' '] + arg;
    OneArgument(program, ' ', arg);
  }

  /** A program token, one whitespace character and an argument token parse to that command. */
  lemma OneArgument(program: string, c: char, arg: string)
    requires IsToken(program) && IsAsciiWhitespace(c) && IsToken(arg)
    ensures CmdFromString(program + [c] + arg) == Ok(Command(program, [arg]))
  {
    TokensAtWhitespace(program, c, arg);
    TokensOfToken(program);
    TokensOfToken(arg);
    assert Tokens(program + [c] + arg) == [program, arg];
  }

  /** The empty string is rejected. */
  lemma EmptyStringRejected()
    ensures CmdFromString("") == Err(EmptyCommandError)
  {
  }

  /** Where the first token of a string that is not all whitespace starts and ends. */
  lemma FirstRun(s: string) returns (k: nat, e: nat)
    requires !AllWhitespace(s)
    ensures k < e <= |s| && AllWhitespace(s[..k]) && NoWhitespace(s[k..e])
    ensures e == |s| || IsAsciiWhitespace(s[e])
  {
    k := 0;
    while k < |s| && IsAsciiWhitespace(s[k])
      invariant k <= |s| && AllWhitespace(s[..k])
    {
      assert s[..k + 1] == s[..k] + [s[k]];
      k := k + 1;
    }
    e := k;
    while e < |s| && !IsAsciiWhitespace(s[e])
      invariant k <= e <= |s| && NoWhitespace(s[k..e])
    {
      assert s[k..e + 1] == s[k..e] + [s[e]];
      e := e + 1;
    }
  }

  /** The tokens of a string are its first run followed by the tokens of the rest. */
  lemma TokensAfterFirstRun(s: string, k: nat, e: nat)
    requires k < e <= |s| && AllWhitespace(s[..k]) && NoWhitespace(s[k..e])
    requires e == |s| || IsAsciiWhitespace(s[e])
    ensures Tokens(s) == [s[k..e]] + Tokens(s[e..])
  {
    assert s == s[..k] + s[k..] + "";
    PaddingIgnored(s[..k], s[k..], "");
    var r := s[k..];
    assert r[..e - k] == s[k..e] && r[e - k..] == s[e..];
    LeadingRun(r, e - k);
  }

  /** A string that starts with a maximal run of non-whitespace has that run as its first token. */
  lemma LeadingRun(s: string, e: nat)
    requires 0 < e <= |s| && NoWhitespace(s[..e])
    requires e == |s| || IsAsciiWhitespace(s[e])
    ensures Tokens(s) == [s[..e]] + Tokens(s[e..])
  {
    var t := s[..e];
    TokensOfToken(t);
    if e == |s| {
      assert s == t;
      assert s[e..] == "";
    } else {
      assert s == t + [s[e]] + s[e + 1..];
      TokensAtWhitespace(t, s[e], s[e + 1..]);
      assert s[e..] == "" + [s[e]] + s[e + 1..];
      TokensAtWhitespace("", s[e], s[e + 1..]);
    }
  }

  /**
   * The program is the first maximal run of non-whitespace characters, after
   * any leading whitespace, and the arguments are the tokens of what follows it.
   */
  lemma ProgramIsFirstToken(s: string)
    requires CmdFromString(s).Ok?
    ensures exists k, e :: 0 <= k < e <= |s| && AllWhitespace(s[..k]) && NoWhitespace(s[k..e])
                           && (e == |s| || IsAsciiWhitespace(s[e]))
                           && CmdFromString(s).value.program == s[k..e]
                           && CmdFromString(s).value.args == Tokens(s[e..])
  {
    var cmd := CmdFromString(s).value;
    var k, e := FirstRun(s);
    TokensAfterFirstRun(s, k, e);
    assert CommandTokens(cmd) == [s[k..e]] + Tokens(s[e..]);
    assert cmd.program == CommandTokens(cmd)[0];
    assert cmd.args == CommandTokens(cmd)[1..];
  }
}
