/**
 * The release tool's command line: argument parsing, the version guard,
 * the semantic-version pattern and shell quoting of git arguments.
 */
module ReleaseInput {
  import opened Wrappers
  import opened Strings
  import opened ReleaseBase

  // ---------------------------------------------------------------------
  // The version pattern ^\d+\.\d+\.\d+(?:-[0-9A-Za-z.-]+)?$
  // ---------------------------------------------------------------------

  /** The end of the run of ASCII digits that starts at `i`. */
  function DigitsEnd(s: string, i: nat): (j: nat)
    requires i <= |s|
    ensures i <= j <= |s|
    ensures forall k :: i <= k < j ==> IsAsciiDigit(s[k])
    ensures j < |s| ==> !IsAsciiDigit(s[j])
    decreases |s| - i
  {
    if i < |s| && IsAsciiDigit(s[i]) then DigitsEnd(s, i + 1) else i
  }

  predicate IsPrereleaseChar(c: char) {
    IsAsciiAlphanumeric(c) || c == '.' || c == '-'
  }

  /**
   * The tool's semver test, read left to right. The digit runs are taken
   * whole because a dot or a dash can never be part of one, so the
   * pattern's backtracking never has a second choice.
   */
  predicate IsSemver(s: string) {
    var a := DigitsEnd(s, 0);
    0 < a < |s| && s[a] == '.'
    && var b := DigitsEnd(s, a + 1);
    a + 1 < b < |s| && s[b] == '.'
    && var c := DigitsEnd(s, b + 1);
    b + 1 < c
    && (c == |s|
        || (s[c] == '-' && c + 1 < |s| && forall k :: c + 1 <= k < |s| ==> IsPrereleaseChar(s[k])))
  }

  /** The pieces the version pattern is made of. */
  datatype SemverParts = SemverParts(major: string, minor: string, patch: string, prerelease: Option<string>)
  {
    predicate WellFormed() {
      |major| > 0 && AllAsciiDigits(major)
      && |minor| > 0 && AllAsciiDigits(minor)
      && |patch| > 0 && AllAsciiDigits(patch)
      && (prerelease.Some? ==>
            |prerelease.value| > 0
            && forall k :: 0 <= k < |prerelease.value| ==> IsPrereleaseChar(prerelease.value[k]))
    }

    function Render(): string {
      major + "." + minor + "." + patch + (if prerelease.Some? then "-" + prerelease.value else "")
    }
  }

  /** The version pattern as a grammar: some well-formed parts render to `s`. */
  ghost predicate MatchesSemverPattern(s: string) {
    exists p: SemverParts :: p.WellFormed() && p.Render() == s
  }

  lemma {:induction false} DigitsEndAt(s: string, i: nat, j: nat)
    requires i <= j <= |s|
    requires forall k :: i <= k < j ==> IsAsciiDigit(s[k])
    requires j < |s| ==> !IsAsciiDigit(s[j])
    ensures DigitsEnd(s, i) == j
    decreases j - i
  {
    if i < j { DigitsEndAt(s, i + 1, j); }
  }

  /** The scanner accepts exactly the strings the grammar generates. */
  lemma SemverScannerMatchesPattern(s: string)
    ensures IsSemver(s) <==> MatchesSemverPattern(s)
  {
    if IsSemver(s) {
      var a := DigitsEnd(s, 0);
      var b := DigitsEnd(s, a + 1);
      var c := DigitsEnd(s, b + 1);
      var p := SemverParts(s[..a], s[a + 1..b], s[b + 1..c], if c == |s| then None else Some(s[c + 1..]));
      assert p.WellFormed();
      if c == |s| {
        assert s == s[..a] + "." + s[a + 1..b] + "." + s[b + 1..c];
      } else {
        assert s == s[..a] + "." + s[a + 1..b] + "." + s[b + 1..c] + ("-" + s[c + 1..]);
      }
      assert p.Render() == s;
    }
    if MatchesSemverPattern(s) {
      var p: SemverParts :| p.WellFormed() && p.Render() == s;
      RenderedPartsAreSemver(p);
    }
  }

  lemma RenderedPartsAreSemver(p: SemverParts)
    requires p.WellFormed()
    ensures IsSemver(p.Render())
  {
    var s := p.Render();
    var tail := if p.prerelease.Some? then "-" + p.prerelease.value else "";
    assert s == p.major + "." + p.minor + "." + p.patch + tail;
    var a := |p.major|;
    var b := a + 1 + |p.minor|;
    var c := b + 1 + |p.patch|;
    assert forall k :: 0 <= k < a ==> s[k] == p.major[k];
    assert s[a] == '.';
    assert forall k :: a + 1 <= k < b ==> s[k] == p.minor[k - a - 1];
    assert s[b] == '.';
    assert forall k :: b + 1 <= k < c ==> s[k] == p.patch[k - b - 1];
    assert |s| == c + |tail|;
    assert c < |s| ==> s[c] == '-';
    DigitsEndAt(s, 0, a);
    DigitsEndAt(s, a + 1, b);
    DigitsEndAt(s, b + 1, c);
    if p.prerelease.Some? {
      assert forall k :: c + 1 <= k < |s| ==> s[k] == p.prerelease.value[k - c - 1];
    }
  }

  /** A version that passes the test starts with a digit. */
  lemma SemverStartsWithDigit(s: string)
    requires IsSemver(s)
    ensures |s| > 0 && IsAsciiDigit(s[0])
  {
  }

  /**
   * A version that passes the test is made of ASCII letters, digits, dots
   * and dashes only: no quote of either kind and no whitespace.
   */
  lemma SemverCharacters(s: string)
    requires IsSemver(s)
    ensures forall k :: 0 <= k < |s| ==> IsPrereleaseChar(s[k])
    ensures '"' !in s && '\'' !in s && |s| > 0
  {
    var a := DigitsEnd(s, 0);
    var b := DigitsEnd(s, a + 1);
    var c := DigitsEnd(s, b + 1);
    forall k | 0 <= k < |s| ensures IsPrereleaseChar(s[k]) {
      if k < a || a < k < b || b < k < c {
        assert IsAsciiDigit(s[k]);
      }
    }
  }

  /**
   * `ensureVersionInput`: refuses a missing or empty version, then one
   * with a leading `v`, then anything off the pattern; otherwise gives the
   * input back unchanged.
   */
  function EnsureVersionInput(version: Option<string>): (r: Result<string, VersionInputError>)
    ensures r.Ok? <==> version.Some? && IsSemver(version.value)
    ensures r.Ok? ==> r.value == version.value && MatchesSemverPattern(r.value)
    ensures r == Err(MissingVersion) <==> version.None? || version.value == ""
    ensures r == Err(LeadingV) <==> version.Some? && version.value != "" && version.value[0] == 'v'
  {
    if version.None? || version.value == "" then Err(MissingVersion)
    else if StartsWith(version.value, "v") then Err(LeadingV)
    else if !IsSemver(version.value) then Err(InvalidSemver)
    else
      SemverScannerMatchesPattern(version.value);
      Ok(version.value)
  }

  // ---------------------------------------------------------------------
  // Shell quoting: quote(value) wraps in single quotes, each ' as '\''
  // ---------------------------------------------------------------------

  function EscapeSingleQuotes(s: string): string
    decreases |s|
  {
    if s == [] then []
    else (if s[0] == '\'' then "'\\''" else [s[0]]) + EscapeSingleQuotes(s[1..])
  }

  function Quote(s: string): string {
    "'" + EscapeSingleQuotes(s) + "'"
  }

  /** Characters that end or alter a word when they stand outside quotes in a POSIX shell. */
  predicate IsShellSpecial(c: char) {
    c in " \t\n;&|<>()$`\"*?[#~"
  }

  /**
   * How a POSIX shell reads one word made of single-quoted segments,
   * backslash escapes and plain characters; `None` when the word is
   * unterminated or would be split or expanded.
   */
  function ShellWord(w: string): Option<string>
    decreases |w|
  {
    if w == [] then Some([])
    else if w[0] == '\'' then
      match IndexOfFrom(w, '\'', 1)
      case None => None
      case Some(e) =>
        match ShellWord(w[e + 1..])
        case None => None
        case Some(rest) => Some(w[1..e] + rest)
    else if w[0] == '\\' then
      if |w| == 1 then None
      else
        match ShellWord(w[2..])
        case None => None
        case Some(rest) => Some([w[1]] + rest)
    else if IsShellSpecial(w[0]) then None
    else
      match ShellWord(w[1..])
      case None => None
      case Some(rest) => Some([w[0]] + rest)
  }

  lemma {:induction false} EscapeWithoutQuotes(s: string)
    requires '\'' !in s
    ensures EscapeSingleQuotes(s) == s
    decreases |s|
  {
    if s != [] {
      assert '\'' !in s[1..];
      EscapeWithoutQuotes(s[1..]);
    }
  }

  lemma {:induction false} EscapeAppend(a: string, b: string)
    ensures EscapeSingleQuotes(a + b) == EscapeSingleQuotes(a) + EscapeSingleQuotes(b)
    decreases |a|
  {
    if a != [] {
      assert (a + b)[1..] == a[1..] + b;
      EscapeAppend(a[1..], b);
    } else {
      assert a + b == b;
    }
  }

  /** A single-quoted segment contributes its text verbatim. */
  lemma QuotedSegment(body: string, rest: string)
    requires '\'' !in body
    ensures ShellWord("'" + body + "'" + rest)
      == match ShellWord(rest) case None => None case Some(r) => Some(body + r)
  {
    var w := "'" + body + "'" + rest;
    assert forall j :: 1 <= j < |body| + 1 ==> w[j] == body[j - 1];
    assert w[|body| + 1] == '\'';
    assert IndexOfFrom(w, '\'', 1) == Some(|body| + 1);
    assert w[|body| + 2..] == rest;
    assert w[1..|body| + 1] == body;
  }

  /** An escaped quote outside quotes contributes one quote. */
  lemma EscapedQuote(rest: string)
    ensures ShellWord("\\'" + rest)
      == match ShellWord(rest) case None => None case Some(r) => Some("'" + r)
  {
    var w := "\\'" + rest;
    assert w[2..] == rest;
  }

  lemma EscapeLeadingQuote(s2: string)
    ensures EscapeSingleQuotes("'" + s2) == "'\\''" + EscapeSingleQuotes(s2)
  {
    assert ("'" + s2)[1..] == s2;
  }

  lemma RegroupQuoted(s1: string, e2: string)
    ensures "'" + (s1 + ("'\\''" + e2)) + "'" == "'" + s1 + "'" + ("\\'" + ("'" + e2 + "'"))
  {
  }

  /** Quoting a value that holds a quote: the text before it, an escaped quote, then the rest quoted again. */
  lemma QuoteSplitsAtQuote(s1: string, s2: string)
    requires '\'' !in s1
    ensures Quote(s1 + "'" + s2) == "'" + s1 + "'" + ("\\'" + Quote(s2))
  {
    var e2 := EscapeSingleQuotes(s2);
    assert s1 + "'" + s2 == s1 + ("'" + s2);
    EscapeAppend(s1, "'" + s2);
    EscapeWithoutQuotes(s1);
    EscapeLeadingQuote(s2);
    assert EscapeSingleQuotes(s1 + "'" + s2) == s1 + ("'\\''" + e2);
    RegroupQuoted(s1, e2);
  }

  lemma QuoteWithoutQuotes(s: string)
    requires '\'' !in s
    ensures ShellWord(Quote(s)) == Some(s)
  {
    EscapeWithoutQuotes(s);
    QuotedSegment(s, "");
    assert Quote(s) == "'" + s + "'" + "";
    assert s + [] == s;
  }

  lemma QuoteAroundQuote(s1: string, s2: string)
    requires '\'' !in s1
    requires ShellWord(Quote(s2)) == Some(s2)
    ensures ShellWord(Quote(s1 + "'" + s2)) == Some(s1 + "'" + s2)
  {
    QuoteSplitsAtQuote(s1, s2);
    EscapedQuote(Quote(s2));
    QuotedSegment(s1, "\\'" + Quote(s2));
    assert s1 + ("'" + s2) == s1 + "'" + s2;
  }

  /** The shell reads back exactly the quoted value, as one word, whatever it contains. */
  lemma {:induction false} QuoteRoundTrip(s: string)
    ensures ShellWord(Quote(s)) == Some(s)
    decreases |s|
  {
    if '\'' !in s {
      QuoteWithoutQuotes(s);
    } else {
      var k := IndexOf(s, '\'').value;
      var s1, s2 := s[..k], s[k + 1..];
      assert s == s1 + "'" + s2;
      QuoteRoundTrip(s2);
      QuoteAroundQuote(s1, s2);
    }
  }

  // ---------------------------------------------------------------------
  // parseArgs
  // ---------------------------------------------------------------------

  /** A flag's value: the text after `=` or the next token, or `true` when there is none. */
  datatype FlagValue = FlagText(text: string) | FlagSet

  datatype ParsedArgs = ParsedArgs(command: string, positional: seq<string>, flags: map<string, FlagValue>)

  /**
   * `body.split("=", 2)`: the key before the first `=`, and the text up
   * to the second `=` (anything after a second `=` is dropped).
   */
  function SplitFlag(body: string): (r: (string, Option<string>))
    ensures '=' !in body ==> r == (body, None)
    ensures '=' in body ==> r.1.Some? && '=' !in r.0 && '=' !in r.1.value
  {
    match SplitOnce(body, '=')
    case None => (body, None)
    case Some((key, rest)) =>
      match SplitOnce(rest, '=')
      case None => (key, Some(rest))
      case Some((value, _)) => (key, Some(value))
  }

  /** `!next || next.startsWith("--")`: there is no value to take for a bare flag. */
  predicate NoValueAt(argv: seq<string>, i: nat) {
    i >= |argv| || argv[i] == "" || StartsWith(argv[i], "--")
  }

  /** The loop of `parseArgs` from index `i`, with what it has gathered so far. */
  function ParseFrom(argv: seq<string>, i: nat, positional: seq<string>, flags: map<string, FlagValue>)
    : (seq<string>, map<string, FlagValue>)
    decreases |argv| - i
  {
    if i >= |argv| then (positional, flags)
    else
      var token := argv[i];
      if token == "--" then ParseFrom(argv, i + 1, positional, flags)
      else if !StartsWith(token, "--") then ParseFrom(argv, i + 1, positional + [token], flags)
      else
        var (key, inline) := SplitFlag(token[2..]);
        if inline.Some? then ParseFrom(argv, i + 1, positional, flags[key := FlagText(inline.value)])
        else if NoValueAt(argv, i + 1) then ParseFrom(argv, i + 1, positional, flags[key := FlagSet])
        else ParseFrom(argv, i + 2, positional, flags[key := FlagText(argv[i + 1])])
  }

  function CommandName(argv: seq<string>): string {
    if |argv| == 0 || argv[0] == "" then "help" else argv[0]
  }

  /** What `parseArgs` returns for the arguments after `node release.mjs`. */
  function ParseArgsSpec(argv: seq<string>): ParsedArgs {
    var (positional, flags) := ParseFrom(argv, 1, [], map[]);
    ParsedArgs(CommandName(argv), positional, flags)
  }

  /** `parseArgs`: one pass over the tokens after the command. */
  method ParseArgs(argv: seq<string>) returns (r: ParsedArgs)
    ensures r == ParseArgsSpec(argv)
  {
    var command := if |argv| == 0 || argv[0] == "" then "help" else argv[0];
    var positional: seq<string> := [];
    var flags: map<string, FlagValue> := map[];
    var i := 1;
    while i < |argv|
      invariant 1 <= i
      invariant ParseFrom(argv, i, positional, flags) == ParseFrom(argv, 1, [], map[])
      decreases |argv| - i
    {
      var token := argv[i];
      if token == "--" {
        i := i + 1;
        continue;
      }
      if !StartsWith(token, "--") {
        positional := positional + [token];
        i := i + 1;
        continue;
      }
      var (key, inline) := SplitFlag(token[2..]);
      if inline.Some? {
        flags := flags[key := FlagText(inline.value)];
        i := i + 1;
        continue;
      }
      if i + 1 >= |argv| || argv[i + 1] == "" || StartsWith(argv[i + 1], "--") {
        flags := flags[key := FlagSet];
        i := i + 1;
        continue;
      }
      flags := flags[key := FlagText(argv[i + 1])];
      i := i + 2;
    }
    r := ParsedArgs(command, positional, flags);
  }

  /** Every positional argument is a token after the command that does not start with `--`, in order. */
  lemma {:induction false} PositionalComeFromTokens(argv: seq<string>, i: nat, positional: seq<string>, flags: map<string, FlagValue>)
    requires 1 <= i && 1 <= |argv|
    requires forall p :: p in positional ==> p in argv[1..] && !StartsWith(p, "--")
    ensures forall p :: p in ParseFrom(argv, i, positional, flags).0 ==> p in argv[1..] && !StartsWith(p, "--")
    decreases |argv| - i
  {
    if i < |argv| {
      var token := argv[i];
      if token == "--" {
        PositionalComeFromTokens(argv, i + 1, positional, flags);
      } else if !StartsWith(token, "--") {
        assert token == argv[1..][i - 1];
        PositionalComeFromTokens(argv, i + 1, positional + [token], flags);
      } else {
        var (key, inline) := SplitFlag(token[2..]);
        if inline.Some? {
          PositionalComeFromTokens(argv, i + 1, positional, flags[key := FlagText(inline.value)]);
        } else if NoValueAt(argv, i + 1) {
          PositionalComeFromTokens(argv, i + 1, positional, flags[key := FlagSet]);
        } else {
          PositionalComeFromTokens(argv, i + 2, positional, flags[key := FlagText(argv[i + 1])]);
        }
      }
    }
  }

  /** The loop over `argv + [t]` agrees with the loop over `argv` until it reaches `t`. */
  lemma {:induction false} ParseFromExtend(argv: seq<string>, t: string, i: nat, positional: seq<string>, flags: map<string, FlagValue>)
    requires StartsWith(t, "--")
    requires i <= |argv|
    ensures ParseFrom(argv + [t], i, positional, flags)
      == (var (p, f) := ParseFrom(argv, i, positional, flags); ParseFrom(argv + [t], |argv|, p, f))
    decreases |argv| - i
  {
    var ext := argv + [t];
    if i < |argv| {
      assert ext[i] == argv[i];
      var token := argv[i];
      if token == "--" {
        ParseFromExtend(argv, t, i + 1, positional, flags);
      } else if !StartsWith(token, "--") {
        ParseFromExtend(argv, t, i + 1, positional + [token], flags);
      } else {
        var (key, inline) := SplitFlag(token[2..]);
        if inline.Some? {
          ParseFromExtend(argv, t, i + 1, positional, flags[key := FlagText(inline.value)]);
        } else {
          assert NoValueAt(ext, i + 1) == NoValueAt(argv, i + 1) by {
            if i + 1 < |argv| { assert ext[i + 1] == argv[i + 1]; }
            else { assert ext[i + 1] == t; }
          }
          if NoValueAt(argv, i + 1) {
            ParseFromExtend(argv, t, i + 1, positional, flags[key := FlagSet]);
          } else {
            assert ext[i + 1] == argv[i + 1];
            ParseFromExtend(argv, t, i + 2, positional, flags[key := FlagText(argv[i + 1])]);
          }
        }
      }
    }
  }

  /**
   * A trailing `--key` or `--key=value` token only sets that flag: it
   * never becomes the value of an earlier flag and leaves the positional
   * arguments alone.
   */
  lemma TrailingFlagSetsOnlyItsKey(argv: seq<string>, t: string)
    requires |argv| >= 1 && StartsWith(t, "--") && t != "--"
    ensures var before := ParseArgsSpec(argv);
            var after := ParseArgsSpec(argv + [t]);
            var (key, inline) := SplitFlag(t[2..]);
            after.command == before.command
            && after.positional == before.positional
            && after.flags == before.flags[key := if inline.Some? then FlagText(inline.value) else FlagSet]
  {
    ParseFromExtend(argv, t, 1, [], map[]);
    var ext := argv + [t];
    assert ext[|argv|] == t;
    assert ext[0] == argv[0];
  }

  /** Without any `--` token after the command, every token is positional and no flag is set. */
  lemma {:induction false} PlainTokensArePositional(argv: seq<string>, i: nat, positional: seq<string>)
    requires 1 <= i <= |argv|
    requires forall k :: i <= k < |argv| ==> !StartsWith(argv[k], "--")
    ensures ParseFrom(argv, i, positional, map[]) == (positional + argv[i..], map[])
    decreases |argv| - i
  {
    if i < |argv| {
      PlainTokensArePositional(argv, i + 1, positional + [argv[i]]);
      assert positional + [argv[i]] + argv[i + 1..] == positional + argv[i..];
    } else {
      assert positional + argv[i..] == positional;
    }
  }

  /** A bare `--key` followed by another flag sets `key`. */
  lemma ParseBareFlagStep(argv: seq<string>, i: nat, positional: seq<string>, flags: map<string, FlagValue>, key: string)
    requires i + 1 < |argv| && argv[i] == "--" + key && key != "" && '=' !in key && StartsWith(argv[i + 1], "--")
    ensures ParseFrom(argv, i, positional, flags) == ParseFrom(argv, i + 1, positional, flags[key := FlagSet])
  {
    assert argv[i][2..] == key;
    assert StartsWith(argv[i], "--");
  }

  /** `--key value` with a value that is not a flag sets `key` to the value. */
  lemma ParseValuedFlagStep(argv: seq<string>, i: nat, positional: seq<string>, flags: map<string, FlagValue>, key: string)
    requires i + 1 < |argv| && argv[i] == "--" + key && key != "" && '=' !in key
    requires argv[i + 1] != "" && !StartsWith(argv[i + 1], "--")
    ensures ParseFrom(argv, i, positional, flags) == ParseFrom(argv, i + 2, positional, flags[key := FlagText(argv[i + 1])])
  {
    assert argv[i][2..] == key;
    assert StartsWith(argv[i], "--");
    assert SplitFlag(argv[i][2..]) == (key, None);
    assert !NoValueAt(argv, i + 1);
  }

  /** A bare flag followed by two flags with values, as in the documented `check --fix` invocation. */
  lemma ParseBareThenValued(argv: seq<string>, bare: string, key1: string, value1: string, key2: string, value2: string)
    requires |argv| == 6 && argv[1] == "--" + bare && argv[2] == "--" + key1 && argv[3] == value1
    requires argv[4] == "--" + key2 && argv[5] == value2
    requires bare != "" && key1 != "" && key2 != "" && '=' !in bare && '=' !in key1 && '=' !in key2
    requires value1 != "" && value2 != "" && !StartsWith(value1, "--") && !StartsWith(value2, "--")
    ensures ParseFrom(argv, 1, [], map[]) == ([], map[bare := FlagSet][key1 := FlagText(value1)][key2 := FlagText(value2)])
  {
    var m1 := map[bare := FlagSet];
    var m2 := m1[key1 := FlagText(value1)];
    assert StartsWith(argv[2], "--");
    ParseBareFlagStep(argv, 1, [], map[], bare);
    ParseValuedFlagStep(argv, 2, [], m1, key1);
    ParseValuedFlagStep(argv, 4, [], m2, key2);
  }

  /** The literal facts the documented invocation needs. */
  lemma CheckExampleTokens()
    ensures "--fix" == "--" + "fix" && "--version" == "--" + "version" && "--tag" == "--" + "tag"
    ensures !StartsWith("0.1.0", "--") && !StartsWith("v0.1.0", "--")
    ensures '=' !in "fix" && '=' !in "version" && '=' !in "tag"
  {
    assert "0.1.0"[..2][0] == '0';
    assert "v0.1.0"[..2][0] == 'v';
  }

  /** The documented `check --fix` invocation. */
  lemma ParseCheckExample()
    ensures ParseArgsSpec(["check", "--fix", "--version", "0.1.0", "--tag", "v0.1.0"])
      == ParsedArgs("check", [], map["fix" := FlagSet, "version" := FlagText("0.1.0"), "tag" := FlagText("v0.1.0")])
  {
    CheckExampleTokens();
    ParseBareThenValued(["check", "--fix", "--version", "0.1.0", "--tag", "v0.1.0"], "fix", "version", "0.1.0", "tag", "v0.1.0");
  }

  /** `--key=value=more` sets `key` to `value`: text after a second `=` is dropped. */
  lemma SplitFlagDropsAfterSecondEquals(key: string, value: string, more: string)
    requires '=' !in key && '=' !in value
    ensures SplitFlag(key + "=" + value + "=" + more) == (key, Some(value))
    ensures SplitFlag(key + "=" + value) == (key, Some(value))
  {
    SplitOnceOfJoin(key, '=', value + "=" + more);
    assert key + "=" + value + "=" + more == key + ['='] + (value + "=" + more);
    SplitOnceOfJoin(value, '=', more);
    assert value + "=" + more == value + ['='] + more;
    SplitOnceOfJoin(key, '=', value);
    assert key + "=" + value == key + ['='] + value;
    assert SplitOnce(value, '=') == None;
  }

  // ---------------------------------------------------------------------
  // main: which command runs with which inputs
  // ---------------------------------------------------------------------

  datatype CliCommand =
    | CheckCommand(fix: bool, version: Option<string>, tag: Option<string>)
    | PrepareCommand(version: Option<string>)
    | CutCommand(version: Option<string>, push: bool)
    | HelpCommand

  /** `Boolean(flags[key])`. */
  predicate FlagTruthy(flags: map<string, FlagValue>, key: string) {
    key in flags && (flags[key].FlagSet? || flags[key].text != "")
  }

  /** `typeof flags[key] === "string" ? flags[key] : undefined`. */
  function TextFlag(flags: map<string, FlagValue>, key: string): (r: Option<string>)
    ensures r.Some? <==> key in flags && flags[key].FlagText?
  {
    if key in flags && flags[key].FlagText? then Some(flags[key].text) else None
  }

  /** `main`'s dispatch on the parsed command; anything unknown prints help. */
  function Dispatch(args: ParsedArgs): (c: CliCommand)
    ensures c.PrepareCommand? || c.CutCommand? ==> c.version == (if |args.positional| > 0 then Some(args.positional[0]) else None)
    ensures c.HelpCommand? <==> args.command !in {"check", "prepare", "cut"}
  {
    var first := if |args.positional| > 0 then Some(args.positional[0]) else None;
    if args.command == "check" then
      CheckCommand(FlagTruthy(args.flags, "fix"), TextFlag(args.flags, "version"), TextFlag(args.flags, "tag"))
    else if args.command == "prepare" then PrepareCommand(first)
    else if args.command == "cut" then CutCommand(first, FlagTruthy(args.flags, "push"))
    else HelpCommand
  }
}
