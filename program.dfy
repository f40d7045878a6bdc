/**
 * Program: the entry point's own logic. It loads the `.env` file of the
 * working directory into configuration entries, checks that the six required
 * options are set, and runs one sync pass only when none is missing. The
 * configuration builder, option binding, logging and dependency injection
 * are not part of this model; a file is modelled as its sequence of lines.
 */
module Program {

  import opened Text
  import opened Models
  import opened GitHubSync
  import opened SyncTracker
  import opened SyncOrchestrator

  // ---------------------------------------------------------------- the .env file

  /**
   * What one `.env` line contributes: nothing for a blank line, a comment, a
   * line without `=` or one that starts with `=`; otherwise the trimmed key,
   * with every "__" turned into the configuration separator ":", and the
   * trimmed rest of the line after the first `=`.
   */
  function ParseEnvLine(line: string): (r: Option<(string, string)>)
    ensures var t := Trim(line);
      r.Some? <==> t != [] && t[0] != '#' && IndexOf(t, '=') > 0
  {
    var t := Trim(line);
    if t == [] || t[0] == '#' then None
    else
      var idx := IndexOf(t, '=');
      if idx <= 0 then None
      else Some((ReplaceUnderscorePairs(Trim(t[..idx])), Trim(t[idx + 1..])))
  }

  /**
   * The entry of a line that gives one: the key is the trimmed text before
   * the first `=` with "__" turned into ":", and the value is the trimmed
   * text after that `=`.
   */
  lemma ParseEnvLineEntry(line: string)
    requires ParseEnvLine(line).Some?
    ensures var t := Trim(line);
      var i := IndexOf(t, '=');
      && 0 < i < |t| && '=' !in t[..i]
      && ParseEnvLine(line).value == (ReplaceUnderscorePairs(Trim(t[..i])), Trim(t[i + 1..]))
  {
  }

  /** The key of an entry is non-empty and holds no `=`; its value has no white space at its ends. */
  lemma ParseEnvLineKeyValue(line: string)
    requires ParseEnvLine(line).Some?
    ensures var r := ParseEnvLine(line).value;
      r.0 != [] && '=' !in r.0 && Trim(r.1) == r.1
  {
    ParseEnvLineEntry(line);
    var t := Trim(line);
    var i := IndexOf(t, '=');
    var raw, rest := t[..i], t[i + 1..];
    assert raw[0] == t[0];
    EnvKeyFacts(raw);
    TrimIsTrimmed(rest);
  }

  /** The text before the first `=` of a trimmed line gives a non-empty key without `=`. */
  lemma EnvKeyFacts(raw: string)
    requires raw != [] && !IsWhiteSpace(raw[0]) && '=' !in raw
    ensures var key := ReplaceUnderscorePairs(Trim(raw)); key != [] && '=' !in key
  {
    TrimStartOfNonBlankHead(raw);
    TrimKeepsAbsentChar(raw, '=');
    ReplaceUnderscorePairsKeepsAbsentChar(Trim(raw), '=');
  }

  /** Replacing "__" by ":" introduces no character other than ':'. */
  lemma {:induction false} ReplaceUnderscorePairsKeepsAbsentChar(s: string, c: char)
    requires c !in s && c != ':'
    ensures c !in ReplaceUnderscorePairs(s)
    decreases |s|
  {
    if |s| >= 2 && s[0] == '_' && s[1] == '_' {
      ReplaceUnderscorePairsKeepsAbsentChar(s[2..], c);
    } else if |s| > 0 {
      ReplaceUnderscorePairsKeepsAbsentChar(s[1..], c);
    }
  }

  /**
   * A line written as "key=value", with a key that has no `=`, does not start
   * with `#` and has no white space at either end, and a value without white
   * space at either end, gives that key (with "__" turned into ":") and
   * exactly that value, even when the value holds further `=` signs.
   */
  lemma ParseWrittenEnvLine(key: string, value: string)
    requires key != [] && '=' !in key && key[0] != '#'
    requires !IsWhiteSpace(key[0]) && !IsWhiteSpace(key[|key| - 1])
    requires value != [] ==> !IsWhiteSpace(value[0]) && !IsWhiteSpace(value[|value| - 1])
    ensures ParseEnvLine(key + "=" + value) == Some((ReplaceUnderscorePairs(key), value))
  {
    JoinedLine(key, '=', value);
    TrimOfTrimmed(key);
    TrimOfTrimmed(value);
  }

  /** What each line of a file contributes, line by line. */
  function Entries(lines: seq<string>): seq<Option<(string, string)>> {
    MapSeq(ParseEnvLine, lines)
  }

  /** Storing entries in order into a dictionary: a later entry with the same key overwrites an earlier one. */
  function Apply(vars: map<string, string>, es: seq<Option<(string, string)>>): (r: map<string, string>)
    ensures vars.Keys <= r.Keys
    ensures es != [] && es[|es| - 1].Some? ==>
      var last := es[|es| - 1].value;
      last.0 in r && r[last.0] == last.1
    ensures (forall i :: 0 <= i < |es| ==> es[i].None?) ==> r == vars
    decreases |es|
  {
    if es == [] then vars
    else
      var before := Apply(vars, es[..|es| - 1]);
      match es[|es| - 1]
      case None => before
      case Some((key, value)) => before[key := value]
  }

  /**
   * The configuration entries a `.env` file gives: a file whose every line is
   * skipped gives none, and the entry of the last line always stands.
   */
  function EnvVars(lines: seq<string>): (vars: map<string, string>)
    ensures (forall i :: 0 <= i < |lines| ==> ParseEnvLine(lines[i]).None?) ==> vars == map[]
    ensures lines != [] && ParseEnvLine(lines[|lines| - 1]).Some? ==>
      var last := ParseEnvLine(lines[|lines| - 1]).value;
      last.0 in vars && vars[last.0] == last.1
  {
    var es := Entries(lines);
    var r := Apply(map[], es);
    if lines != [] then
      EntriesAt(lines, |lines| - 1);
      var e := es[|es| - 1];
      assert e.Some? ==> e.value.0 in r && r[e.value.0] == e.value.1;
      r
    else r
  }

  /** The entry of the i-th line. */
  lemma EntriesAt(lines: seq<string>, i: nat)
    requires i < |lines|
    ensures |Entries(lines)| == |lines| && Entries(lines)[i] == ParseEnvLine(lines[i])
  {
  }

  lemma ApplySnoc(vars: map<string, string>, es: seq<Option<(string, string)>>, e: Option<(string, string)>)
    ensures Apply(vars, es + [e]) == if e.None? then Apply(vars, es) else Apply(vars, es)[e.value.0 := e.value.1]
  {
    assert (es + [e])[..|es|] == es;
  }

  /** Entries applied one run after another: the second run's entries win. */
  lemma {:induction false} ApplyAppend(a: seq<Option<(string, string)>>, b: seq<Option<(string, string)>>)
    ensures Apply(map[], a + b) == Apply(map[], a) + Apply(map[], b)
    decreases |b|
  {
    var x := Apply(map[], a);
    if b == [] {
      assert a + b == a;
      assert x + map[] == x;
    } else {
      var b', last := b[..|b| - 1], b[|b| - 1];
      assert a + b == (a + b') + [last];
      assert b == b' + [last];
      ApplySnoc(map[], a + b', last);
      ApplySnoc(map[], b', last);
      ApplyAppend(a, b');
      if last.Some? {
        assert (x + Apply(map[], b'))[last.value.0 := last.value.1]
          == x + Apply(map[], b')[last.value.0 := last.value.1];
      }
    }
  }

  /** A line that is blank, a comment, or has no key changes nothing, wherever it stands. */
  lemma SkippedLineContributesNothing(a: seq<string>, line: string, b: seq<string>)
    requires ParseEnvLine(line).None?
    ensures EnvVars(a + [line] + b) == EnvVars(a + b)
  {
    MapSeqAppend(ParseEnvLine, a + [line], b);
    MapSeqAppend(ParseEnvLine, a, [line]);
    MapSeqAppend(ParseEnvLine, a, b);
    assert MapSeq(ParseEnvLine, [line]) == [None];
    ApplyAppend(Entries(a) + [None], Entries(b));
    ApplySnoc(map[], Entries(a), None);
    ApplyAppend(Entries(a), Entries(b));
  }

  /** A key is set exactly when some entry gives it. */
  lemma {:induction false} ApplyKeys(es: seq<Option<(string, string)>>)
    ensures forall k :: k in Apply(map[], es) <==>
      exists i :: 0 <= i < |es| && es[i].Some? && es[i].value.0 == k
    decreases |es|
  {
    if es != [] {
      var init := es[..|es| - 1];
      ApplyKeys(init);
      forall k | k in Apply(map[], es)
        ensures exists i :: 0 <= i < |es| && es[i].Some? && es[i].value.0 == k
      {
        if k in Apply(map[], init) {
          var i :| 0 <= i < |init| && init[i].Some? && init[i].value.0 == k;
          assert es[i] == init[i];
        }
      }
      forall k, i | 0 <= i < |es| && es[i].Some? && es[i].value.0 == k
        ensures k in Apply(map[], es)
      {
        if i < |es| - 1 {
          assert init[i] == es[i];
        }
      }
    }
  }

  /** A key is set exactly when some line of the file gives it. */
  lemma EnvVarsKeys(lines: seq<string>)
    ensures forall k :: k in EnvVars(lines) <==>
      exists i :: 0 <= i < |lines| && ParseEnvLine(lines[i]).Some? && ParseEnvLine(lines[i]).value.0 == k
  {
    ApplyKeys(Entries(lines));
  }

  /** The value of a key is the one of the last entry that gives that key. */
  lemma {:induction false} ApplyLastEntryWins(es: seq<Option<(string, string)>>, i: nat)
    requires i < |es| && es[i].Some?
    requires forall j :: i < j < |es| && es[j].Some? ==> es[j].value.0 != es[i].value.0
    ensures es[i].value.0 in Apply(map[], es) && Apply(map[], es)[es[i].value.0] == es[i].value.1
    decreases |es|
  {
    var init := es[..|es| - 1];
    if i < |es| - 1 {
      assert es[i] == init[i];
      forall j | i < j < |init| && init[j].Some?
        ensures init[j].value.0 != init[i].value.0
      {
        assert init[j] == es[j];
      }
      ApplyLastEntryWins(init, i);
    }
  }

  /** The value of a key is the one on the last line that gives that key: later lines overwrite earlier ones. */
  lemma EnvVarsLastLineWins(lines: seq<string>, i: nat)
    requires i < |lines| && ParseEnvLine(lines[i]).Some?
    requires forall j :: i < j < |lines| && ParseEnvLine(lines[j]).Some? ==>
      ParseEnvLine(lines[j]).value.0 != ParseEnvLine(lines[i]).value.0
    ensures var entry := ParseEnvLine(lines[i]).value;
      entry.0 in EnvVars(lines) && EnvVars(lines)[entry.0] == entry.1
  {
    ApplyLastEntryWins(Entries(lines), i);
  }

  /**
   * The loading loop: when the file exists, each line that gives an entry
   * (`ParseEnvLine`) is stored under its key, replacing any earlier value.
   */
  method LoadEnvFile(file: Option<seq<string>>) returns (envVars: map<string, string>)
    ensures file.None? ==> envVars == map[]
    ensures file.Some? ==> envVars == EnvVars(file.value)
  {
    envVars := map[];
    if file.None? {
      return;
    }
    var lines := file.value;
    ghost var es := Entries(lines);
    for n := 0 to |lines|
      invariant envVars == Apply(map[], es[..n])
    {
      var entry := ParseEnvLine(lines[n]);
      ApplySnoc(map[], es[..n], entry);
      TakeSnoc(es, n);
      if entry.Some? {
        envVars := envVars[entry.value.0 := entry.value.1];
      }
    }
    assert es[..|lines|] == es;
  }

  // ---------------------------------------------------------------- required options

  /** The environment variable names of the required options, in the order they are checked. */
  const RequiredNames: seq<string> := [
    "LEETKHATA__LeetCodeSession", "LEETKHATA__LeetCodeCsrfToken", "LEETKHATA__GitHubToken",
    "LEETKHATA__LeetCodeUsername", "LEETKHATA__GitHubOwner", "LEETKHATA__GitHubRepo"]

  /** `name` when its value is blank, nothing otherwise. */
  function Listed(value: string, name: string): (r: seq<string>)
    ensures name in r <==> IsBlank(value)
    ensures |r| <= 1 && forall x :: x in r ==> x == name
  {
    if IsBlank(value) then [name] else []
  }

  /** The `missing` list: the required options that are null, empty or white space only, in check order. */
  function MissingOptions(opts: Options): (missing: seq<string>)
    ensures |missing| <= 6
    ensures forall x :: x in missing ==> x in RequiredNames
    ensures missing == [] <==>
      && !IsBlank(opts.leetCodeSession) && !IsBlank(opts.leetCodeCsrfToken) && !IsBlank(opts.gitHubToken)
      && !IsBlank(opts.leetCodeUsername) && !IsBlank(opts.gitHubOwner) && !IsBlank(opts.gitHubRepo)
  {
    Listed(opts.leetCodeSession, "LEETKHATA__LeetCodeSession")
    + Listed(opts.leetCodeCsrfToken, "LEETKHATA__LeetCodeCsrfToken")
    + Listed(opts.gitHubToken, "LEETKHATA__GitHubToken")
    + Listed(opts.leetCodeUsername, "LEETKHATA__LeetCodeUsername")
    + Listed(opts.gitHubOwner, "LEETKHATA__GitHubOwner")
    + Listed(opts.gitHubRepo, "LEETKHATA__GitHubRepo")
  }

  /** An option is listed exactly when its value is blank. */
  lemma MissingOptionsMembers(opts: Options)
    ensures "LEETKHATA__LeetCodeSession" in MissingOptions(opts) <==> IsBlank(opts.leetCodeSession)
    ensures "LEETKHATA__LeetCodeCsrfToken" in MissingOptions(opts) <==> IsBlank(opts.leetCodeCsrfToken)
    ensures "LEETKHATA__GitHubToken" in MissingOptions(opts) <==> IsBlank(opts.gitHubToken)
    ensures "LEETKHATA__LeetCodeUsername" in MissingOptions(opts) <==> IsBlank(opts.leetCodeUsername)
    ensures "LEETKHATA__GitHubOwner" in MissingOptions(opts) <==> IsBlank(opts.gitHubOwner)
    ensures "LEETKHATA__GitHubRepo" in MissingOptions(opts) <==> IsBlank(opts.gitHubRepo)
  {
    MissingCookieMembers(opts);
    MissingAccountMembers(opts);
  }

  /** The first three checks: the two cookies and the GitHub token. */
  lemma MissingCookieMembers(opts: Options)
    ensures "LEETKHATA__LeetCodeSession" in MissingOptions(opts) <==> IsBlank(opts.leetCodeSession)
    ensures "LEETKHATA__LeetCodeCsrfToken" in MissingOptions(opts) <==> IsBlank(opts.leetCodeCsrfToken)
    ensures "LEETKHATA__GitHubToken" in MissingOptions(opts) <==> IsBlank(opts.gitHubToken)
  {
    var names := RequiredNames;
    assert |names[0]| == 26 && |names[1]| == 28 && |names[2]| == 22;
    assert |names[3]| == 27 && |names[4]| == 22 && |names[5]| == 21;
    assert names[2][17] != names[4][17];
  }

  /** The last three checks: the LeetCode user name and the repository owner and name. */
  lemma MissingAccountMembers(opts: Options)
    ensures "LEETKHATA__LeetCodeUsername" in MissingOptions(opts) <==> IsBlank(opts.leetCodeUsername)
    ensures "LEETKHATA__GitHubOwner" in MissingOptions(opts) <==> IsBlank(opts.gitHubOwner)
    ensures "LEETKHATA__GitHubRepo" in MissingOptions(opts) <==> IsBlank(opts.gitHubRepo)
  {
    var names := RequiredNames;
    assert |names[0]| == 26 && |names[1]| == 28 && |names[2]| == 22;
    assert |names[3]| == 27 && |names[4]| == 22 && |names[5]| == 21;
    assert names[2][17] != names[4][17];
  }

  /** The values of the required options, in the order they are checked, matching `RequiredNames`. */
  function CheckedValues(opts: Options): (values: seq<string>)
    ensures |values| == |RequiredNames|
  {
    [opts.leetCodeSession, opts.leetCodeCsrfToken, opts.gitHubToken,
     opts.leetCodeUsername, opts.gitHubOwner, opts.gitHubRepo]
  }

  /** The positions below `n` whose value is blank, in increasing order. */
  function BlankPositions(values: seq<string>, n: nat): (idx: seq<nat>)
    requires n <= |values|
    ensures forall k :: 0 <= k < |idx| ==> idx[k] < n && IsBlank(values[idx[k]])
    ensures forall k, l :: 0 <= k < l < |idx| ==> idx[k] < idx[l]
    ensures forall i :: 0 <= i < n && IsBlank(values[i]) ==> i in idx
  {
    if n == 0 then []
    else BlankPositions(values, n - 1) + (if IsBlank(values[n - 1]) then [n - 1] else [])
  }

  /** The names listed by the first `n` checks. */
  function ListedUpTo(values: seq<string>, names: seq<string>, n: nat): seq<string>
    requires |values| == |names| && n <= |values|
  {
    if n == 0 then [] else ListedUpTo(values, names, n - 1) + Listed(values[n - 1], names[n - 1])
  }

  /** The first `n` checks list exactly the names at the blank positions, in order. */
  lemma {:induction false} ListedUpToPositions(values: seq<string>, names: seq<string>, n: nat)
    requires |values| == |names| && n <= |values|
    ensures var idx := BlankPositions(values, n);
      var listed := ListedUpTo(values, names, n);
      |listed| == |idx| && forall k :: 0 <= k < |idx| ==> listed[k] == names[idx[k]]
  {
    if n > 0 {
      var init, initIdx := ListedUpTo(values, names, n - 1), BlankPositions(values, n - 1);
      ListedUpToPositions(values, names, n - 1);
      if IsBlank(values[n - 1]) {
        assert ListedUpTo(values, names, n) == init + [names[n - 1]];
        assert BlankPositions(values, n) == initIdx + [n - 1];
      } else {
        assert ListedUpTo(values, names, n) == init + [] == init;
        assert BlankPositions(values, n) == initIdx + [] == initIdx;
      }
    }
  }

  /**
   * The list is the names of the blank options in check order: exactly one
   * name per blank option, each at the position its check comes in.
   */
  lemma MissingOptionsOrder(opts: Options)
    ensures var idx := BlankPositions(CheckedValues(opts), 6);
      && |MissingOptions(opts)| == |idx|
      && forall k :: 0 <= k < |idx| ==> MissingOptions(opts)[k] == RequiredNames[idx[k]]
  {
    MissingOptionsIsListedUpTo(opts);
    ListedUpToPositions(CheckedValues(opts), RequiredNames, 6);
  }

  /** The six checks written out are the checks over `CheckedValues` and `RequiredNames`. */
  lemma MissingOptionsIsListedUpTo(opts: Options)
    ensures ListedUpTo(CheckedValues(opts), RequiredNames, 6) == MissingOptions(opts)
  {
    var values := CheckedValues(opts);
    var names := RequiredNames;
    var l := seq(6, k requires 0 <= k < 6 => Listed(values[k], names[k]));
    assert ListedUpTo(values, names, 1) == [] + l[0] == l[0];
    assert ListedUpTo(values, names, 2) == l[0] + l[1];
    assert ListedUpTo(values, names, 3) == l[0] + l[1] + l[2];
    assert ListedUpTo(values, names, 4) == l[0] + l[1] + l[2] + l[3];
    assert ListedUpTo(values, names, 5) == l[0] + l[1] + l[2] + l[3] + l[4];
    assert ListedUpTo(values, names, 6) == l[0] + l[1] + l[2] + l[3] + l[4] + l[5];
    assert l[0] == Listed(opts.leetCodeSession, "LEETKHATA__LeetCodeSession");
    assert l[1] == Listed(opts.leetCodeCsrfToken, "LEETKHATA__LeetCodeCsrfToken");
    assert l[2] == Listed(opts.gitHubToken, "LEETKHATA__GitHubToken");
    assert l[3] == Listed(opts.leetCodeUsername, "LEETKHATA__LeetCodeUsername");
    assert l[4] == Listed(opts.gitHubOwner, "LEETKHATA__GitHubOwner");
    assert l[5] == Listed(opts.gitHubRepo, "LEETKHATA__GitHubRepo");
  }

  /** With the default options, every required option but the repository name is missing. */
  lemma DefaultOptionsMissAllButRepo()
    ensures MissingOptions(DefaultOptions()) == RequiredNames[..5]
  {
    var o := DefaultOptions();
    assert !IsBlank(o.gitHubRepo) by {
      assert !IsWhiteSpace(o.gitHubRepo[0]);
    }
  }

  /** The six checks of the validation block, each appending the name of a blank option. */
  method FindMissing(opts: Options) returns (missing: seq<string>)
    ensures missing == MissingOptions(opts)
  {
    missing := [];
    if IsBlank(opts.leetCodeSession) {
      missing := missing + ["LEETKHATA__LeetCodeSession"];
    }
    assert missing == Listed(opts.leetCodeSession, "LEETKHATA__LeetCodeSession");
    ghost var sofar := missing;
    if IsBlank(opts.leetCodeCsrfToken) {
      missing := missing + ["LEETKHATA__LeetCodeCsrfToken"];
    }
    assert missing == sofar + Listed(opts.leetCodeCsrfToken, "LEETKHATA__LeetCodeCsrfToken");
    sofar := missing;
    if IsBlank(opts.gitHubToken) {
      missing := missing + ["LEETKHATA__GitHubToken"];
    }
    assert missing == sofar + Listed(opts.gitHubToken, "LEETKHATA__GitHubToken");
    sofar := missing;
    if IsBlank(opts.leetCodeUsername) {
      missing := missing + ["LEETKHATA__LeetCodeUsername"];
    }
    assert missing == sofar + Listed(opts.leetCodeUsername, "LEETKHATA__LeetCodeUsername");
    sofar := missing;
    if IsBlank(opts.gitHubOwner) {
      missing := missing + ["LEETKHATA__GitHubOwner"];
    }
    assert missing == sofar + Listed(opts.gitHubOwner, "LEETKHATA__GitHubOwner");
    sofar := missing;
    if IsBlank(opts.gitHubRepo) {
      missing := missing + ["LEETKHATA__GitHubRepo"];
    }
    assert missing == sofar + Listed(opts.gitHubRepo, "LEETKHATA__GitHubRepo");
  }

  // ---------------------------------------------------------------- the exit code

  /** The process exit code for a pass's outcome: any failure is caught and gives 1. */
  function ExitCode(outcome: RunOutcome): (code: int)
    ensures code == 1 <==> outcome.Failed?
    ensures code == 0 <==> !outcome.Failed?
  {
    if outcome.Failed? then 1 else 0
  }

  /**
   * The validation and run: with any required option missing, exit with 1
   * and leave the repository untouched, without running the pass; otherwise
   * run one pass and exit with 0, or with 1 when it failed.
   */
  method Launch(orchestrator: Orchestrator, now: Instant) returns (exitCode: int)
    modifies orchestrator.github
    ensures MissingOptions(orchestrator.options) != [] ==>
      exitCode == 1 && unchanged(orchestrator.github)
    ensures MissingOptions(orchestrator.options) == [] ==>
      var path := GetSyncStateFilePath(orchestrator.options);
      exitCode == ExitCode(OutcomeOf(
        ExpectedRun(orchestrator.Setup(), old(orchestrator.github.Lookup(path)), now),
        orchestrator.github.accepting))
  {
    var missing := FindMissing(orchestrator.options);
    if |missing| > 0 {
      return 1;
    }
    var outcome := orchestrator.RunAsync(now);
    exitCode := ExitCode(outcome);
  }
}
