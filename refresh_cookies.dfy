/**
 * RefreshCookies: the pure parts of the cookie-refresh script. They are the
 * masking of a token for display, the `owner/repo` override, the merge and
 * rewrite of the `.env` file, and which outputs a choice of mode flags
 * selects. Cookie extraction, the `gh` and `git` subprocesses and the HTTP
 * validation are not part of this model; a file is modelled as its sequence
 * of lines.
 */
module RefreshCookies {

  import opened Text

  // ---------------------------------------------------------------- mask

  /** `mask(value)`: "***" for a short token, otherwise its first eight and last four characters around "...". */
  function Mask(value: string): (m: string)
    ensures |value| <= 10 ==> m == "***"
    ensures |value| > 10 ==> |m| == 15 && m[..8] == value[..8] && m[8..11] == "..." && m[11..] == value[|value| - 4..]
  {
    if |value| <= 10 then "***" else value[..8] + "..." + value[|value| - 4..]
  }

  /**
   * The mask reveals nothing but the first eight and last four characters:
   * two long tokens that agree there are masked alike, whatever lies between.
   */
  lemma MaskRevealsOnlyEnds(a: string, b: string)
    requires |a| > 10 && |b| > 10
    requires a[..8] == b[..8] && a[|a| - 4..] == b[|b| - 4..]
    ensures Mask(a) == Mask(b)
  {
  }

  // ---------------------------------------------------------------- repository override

  /** Where the script takes its target repository from. */
  datatype RepoTarget = Target(owner: string, repo: string) | InvalidRepoFormat | DetectFromRemote

  /**
   * The override branch of `get_github_repo_info`: an absent or empty
   * override falls through to the git remote; otherwise it must split on "/"
   * into exactly two parts, owner and repository, or it is rejected.
   */
  function GetGithubRepoInfo(override: Option<string>): (r: RepoTarget)
    ensures r == DetectFromRemote <==> override.None? || override.value == ""
    ensures r == InvalidRepoFormat <==>
      override.Some? && override.value != "" && multiset(override.value)['/'] != 1
    ensures r.Target? ==>
      override.Some? && override.value == r.owner + "/" + r.repo && '/' !in r.owner && '/' !in r.repo
  {
    if override.None? || override.value == "" then DetectFromRemote
    else
      var parts := Split(override.value, '/');
      if |parts| != 2 then InvalidRepoFormat
      else
        assert parts[1..] == [parts[1]];
        Target(parts[0], parts[1])
  }

  /** An override written as owner "/" repo, with no "/" in either, gives them back in order. */
  lemma RepoOverrideRoundTrip(owner: string, repo: string)
    requires '/' !in owner && '/' !in repo
    ensures GetGithubRepoInfo(Some(owner + "/" + repo)) == Target(owner, repo)
  {
    var s := owner + "/" + repo;
    assert JoinWith([owner, repo], '/') == s;
    SplitJoinWith([owner, repo], '/');
    assert s != "" by {
      assert s[|owner|] == '/';
    }
  }

  // ---------------------------------------------------------------- the .env file

  const SessionKey: string := "LEETKHATA__LeetCodeSession"
  const CsrfKey: string := "LEETKHATA__LeetCodeCsrfToken"

  /** A Python dictionary: its keys in insertion order and the value of each. */
  datatype EnvDict = EnvDict(keys: seq<string>, values: map<string, string>)

  /** The keys are distinct and are exactly the keys that have a value. */
  ghost predicate Valid(d: EnvDict) {
    && (forall i, j :: 0 <= i < j < |d.keys| ==> d.keys[i] != d.keys[j])
    && (forall k :: k in d.values <==> k in d.keys)
  }

  const EmptyDict: EnvDict := EnvDict([], map[])

  /**
   * `d[key] = value`: an existing key keeps its place and takes the new
   * value; a new key goes after all the others.
   */
  function Put(d: EnvDict, key: string, value: string): (r: EnvDict)
    requires Valid(d)
    ensures Valid(r)
    ensures r.values == d.values[key := value]
    ensures key in d.values ==> r.keys == d.keys
    ensures key !in d.values ==> r.keys == d.keys + [key]
  {
    if key in d.values then EnvDict(d.keys, d.values[key := value])
    else EnvDict(d.keys + [key], d.values[key := value])
  }

  /**
   * One line of the existing file: stripped, dropped when empty, a comment
   * or without `=`, otherwise split at its first `=` with both sides stripped.
   */
  function ParseExistingLine(line: string): (r: Option<(string, string)>)
    ensures var t := Trim(line);
      r.Some? <==> t != [] && t[0] != '#' && '=' in t
    ensures r.Some? ==>
      var t := Trim(line);
      var i := IndexOf(t, '=');
      r.value.0 == Trim(t[..i]) && r.value.1 == Trim(t[i + 1..])
  {
    ExistingEntryOfTrimmed(Trim(line))
  }

  /** The entry of an existing line once stripped. */
  function ExistingEntryOfTrimmed(t: string): (r: Option<(string, string)>)
    ensures r.Some? <==> t != [] && t[0] != '#' && '=' in t
    ensures r.Some? ==>
      var i := IndexOf(t, '=');
      r.value.0 == Trim(t[..i]) && r.value.1 == Trim(t[i + 1..])
  {
    if t != [] && t[0] != '#' && '=' in t then
      var (key, value) := Partition(t, '=');
      Some((Trim(key), Trim(value)))
    else None
  }

  /** The dictionary the entries build, in order, from an empty one. */
  function Collect(es: seq<Option<(string, string)>>): (d: EnvDict)
    ensures Valid(d)
    decreases |es|
  {
    if es == [] then EmptyDict
    else
      var before := Collect(es[..|es| - 1]);
      match es[|es| - 1]
      case None => before
      case Some((key, value)) => Put(before, key, value)
  }

  /** The dictionary read from the existing file, empty when there is none. */
  function ReadExisting(file: Option<seq<string>>): (d: EnvDict)
    ensures Valid(d)
  {
    if file.None? then EmptyDict else Collect(MapSeq(ParseExistingLine, file.value))
  }

  /** The two cookie assignments. */
  function Merge(d: EnvDict, session: string, csrf: string): (r: EnvDict)
    requires Valid(d)
    ensures Valid(r)
  {
    Put(Put(d, SessionKey, session), CsrfKey, csrf)
  }

  /** The lines written: "key=value" for each key, in insertion order. */
  function Render(d: EnvDict): (lines: seq<string>)
    requires Valid(d)
    ensures |lines| == |d.keys|
    ensures forall i :: 0 <= i < |d.keys| ==> lines[i] == d.keys[i] + "=" + d.values[d.keys[i]]
  {
    seq(|d.keys|, i requires 0 <= i < |d.keys| => d.keys[i] + "=" + d.values[d.keys[i]])
  }

  /**
   * The lines the script leaves in the `.env` file: among them one assigning
   * the new session cookie and one assigning the new CSRF token.
   */
  function WrittenEnvFile(file: Option<seq<string>>, session: string, csrf: string): (lines: seq<string>)
    ensures SessionKey + "=" + session in lines
    ensures CsrfKey + "=" + csrf in lines
    ensures file.None? ==> lines == [SessionKey + "=" + session, CsrfKey + "=" + csrf]
  {
    var d := ReadExisting(file);
    var m := Merge(d, session, csrf);
    MergeValues(d, session, csrf);
    MergePositions(d, session, csrf);
    var i :| 0 <= i < |m.keys| && m.keys[i] == SessionKey;
    var j :| 0 <= j < |m.keys| && m.keys[j] == CsrfKey;
    assert Render(m)[i] == SessionKey + "=" + session;
    assert Render(m)[j] == CsrfKey + "=" + csrf;
    Render(m)
  }

  /**
   * After the merge the two cookie keys hold the new values, every other key
   * that was read keeps its value, and no other key appears.
   */
  lemma MergeValues(d: EnvDict, session: string, csrf: string)
    requires Valid(d)
    ensures var r := Merge(d, session, csrf);
      && r.values[SessionKey] == session && r.values[CsrfKey] == csrf
      && (forall k :: k in d.values && k != SessionKey && k != CsrfKey ==> k in r.values && r.values[k] == d.values[k])
      && r.values.Keys == d.values.Keys + {SessionKey, CsrfKey}
  {
    assert SessionKey != CsrfKey by {
      assert |SessionKey| != |CsrfKey|;
    }
  }

  /**
   * Keys that were read keep their positions; the cookie keys that were not
   * there are appended, the session key before the CSRF key.
   */
  lemma MergePositions(d: EnvDict, session: string, csrf: string)
    requires Valid(d)
    ensures var r := Merge(d, session, csrf);
      && r.keys[..|d.keys|] == d.keys
      && r.keys[|d.keys|..] ==
        (if SessionKey in d.values then [] else [SessionKey]) + (if CsrfKey in d.values then [] else [CsrfKey])
  {
    assert SessionKey != CsrfKey by {
      assert |SessionKey| != |CsrfKey|;
    }
  }

  // ---------------------------------------------------------------- rewriting is stable

  /** A key as the reading loop can produce it: no `=`, stripped, and not starting a comment. */
  predicate WellFormedKey(key: string) {
    '=' !in key && Trim(key) == key && (key == [] || key[0] != '#')
  }

  /** A key and value as the reading loop can produce them. */
  predicate WellFormedEntry(key: string, value: string) {
    WellFormedKey(key) && Trim(value) == value
  }

  ghost predicate WellFormed(d: EnvDict) {
    Valid(d) && forall k :: k in d.values ==> WellFormedEntry(k, d.values[k])
  }

  /** A written "key=value" line reads back as that key and that value. */
  lemma ParseRenderedLine(key: string, value: string)
    requires WellFormedEntry(key, value)
    ensures ParseExistingLine(key + "=" + value) == Some((key, value))
  {
    TrimEndsNotWhiteSpace(key);
    TrimEndsNotWhiteSpace(value);
    JoinedLine(key, '=', value);
    assert (key + "=" + value)[|key|] == '=';
    assert (key + "=" + value)[0] == if key != [] then key[0] else '=';
  }

  /** A trimmed string has no white space at its ends. */
  lemma TrimEndsNotWhiteSpace(s: string)
    requires Trim(s) == s
    ensures s != [] ==> !IsWhiteSpace(s[0]) && !IsWhiteSpace(s[|s| - 1])
  {
  }

  lemma CollectSnoc(es: seq<Option<(string, string)>>, e: Option<(string, string)>)
    ensures Collect(es + [e]) == if e.None? then Collect(es) else Put(Collect(es), e.value.0, e.value.1)
  {
    assert (es + [e])[..|es|] == es;
  }

  /** Entries that list a dictionary's keys and values in order rebuild its first `n` keys. */
  lemma {:induction false} CollectListing(d: EnvDict, es: seq<Option<(string, string)>>, n: nat)
    requires Valid(d) && |es| == |d.keys| && n <= |d.keys|
    requires forall i :: 0 <= i < |es| ==> es[i] == Some((d.keys[i], d.values[d.keys[i]]))
    ensures Agrees(Collect(es[..n]), d, n)
    decreases n
  {
    if n > 0 {
      CollectListing(d, es, n - 1);
      CollectListingStep(d, es, n);
    }
  }

  /** One more entry of the listing puts the next key of `d` with its value. */
  lemma CollectListingStep(d: EnvDict, es: seq<Option<(string, string)>>, n: nat)
    requires Valid(d) && |es| == |d.keys| && 0 < n <= |d.keys|
    requires es[n - 1] == Some((d.keys[n - 1], d.values[d.keys[n - 1]]))
    requires Agrees(Collect(es[..n - 1]), d, n - 1)
    ensures Agrees(Collect(es[..n]), d, n)
  {
    TakeSnoc(es, n - 1);
    CollectSnoc(es[..n - 1], es[n - 1]);
    PutNextKey(d, Collect(es[..n - 1]), n);
  }

  /** `c` holds the first `n` keys of `d`, in order, with their values. */
  ghost predicate Agrees(c: EnvDict, d: EnvDict, n: nat)
    requires n <= |d.keys|
  {
    c.keys == d.keys[..n] && forall k :: k in c.values ==> k in d.values && c.values[k] == d.values[k]
  }

  lemma PutNextKey(d: EnvDict, c: EnvDict, n: nat)
    requires Valid(d) && Valid(c) && 0 < n <= |d.keys| && Agrees(c, d, n - 1)
    ensures Agrees(Put(c, d.keys[n - 1], d.values[d.keys[n - 1]]), d, n)
  {
    var key := d.keys[n - 1];
    assert key !in c.keys by {
      assert forall i :: 0 <= i < n - 1 ==> d.keys[i] != d.keys[n - 1];
    }
    assert d.keys[..n] == d.keys[..n - 1] + [key];
  }

  /** Reading the file the script wrote gives back exactly the dictionary it wrote. */
  lemma RenderRoundTrip(d: EnvDict)
    requires WellFormed(d)
    ensures ReadExisting(Some(Render(d))) == d
  {
    ReadBackAgrees(d);
    AgreesOnAllKeys(Collect(MapSeq(ParseExistingLine, Render(d))), d);
  }

  /** Reading the written lines rebuilds every key of the dictionary, in order, with its value. */
  lemma ReadBackAgrees(d: EnvDict)
    requires WellFormed(d)
    ensures Agrees(Collect(MapSeq(ParseExistingLine, Render(d))), d, |d.keys|)
  {
    RenderedLinesParse(d);
    ReadBackAgreesWith(ParseExistingLine, d);
  }

  /** The same, for any line reader that reads each written line back as its key and value. */
  lemma ReadBackAgreesWith(read: string -> Option<(string, string)>, d: EnvDict)
    requires Valid(d)
    requires forall i :: 0 <= i < |d.keys| ==> read(Render(d)[i]) == Some((d.keys[i], d.values[d.keys[i]]))
    ensures Agrees(Collect(MapSeq(read, Render(d))), d, |d.keys|)
  {
    ReadLinesAgreeWith(read, Render(d), d);
  }

  /** Lines that a reader reads, one by one, as the keys of `d` in order with their values rebuild `d`. */
  lemma ReadLinesAgreeWith(read: string -> Option<(string, string)>, lines: seq<string>, d: EnvDict)
    requires Valid(d) && |lines| == |d.keys|
    requires forall i :: 0 <= i < |d.keys| ==> read(lines[i]) == Some((d.keys[i], d.values[d.keys[i]]))
    ensures Agrees(Collect(MapSeq(read, lines)), d, |d.keys|)
  {
    var es := MapSeq(read, lines);
    CollectListing(d, es, |d.keys|);
    assert es[..|d.keys|] == es;
  }

  /** Each written line reads back as its key and value. */
  lemma RenderedLinesParse(d: EnvDict)
    requires WellFormed(d)
    ensures forall i :: 0 <= i < |d.keys| ==>
      ParseExistingLine(Render(d)[i]) == Some((d.keys[i], d.values[d.keys[i]]))
  {
    forall i | 0 <= i < |d.keys|
      ensures ParseExistingLine(Render(d)[i]) == Some((d.keys[i], d.values[d.keys[i]]))
    {
      ParseRenderedLine(d.keys[i], d.values[d.keys[i]]);
    }
  }

  lemma AgreesOnAllKeys(c: EnvDict, d: EnvDict)
    requires Valid(c) && Valid(d) && Agrees(c, d, |d.keys|)
    ensures c == d
  {
    assert d.keys[..|d.keys|] == d.keys;
    assert c.values.Keys == d.values.Keys;
    assert c.values == d.values;
  }

  /** Every dictionary the reading loop builds is well formed. */
  lemma {:induction false} ReadExistingWellFormed(file: Option<seq<string>>)
    ensures WellFormed(ReadExisting(file))
  {
    if file.Some? {
      var es := MapSeq(ParseExistingLine, file.value);
      forall i | 0 <= i < |es| && es[i].Some?
        ensures WellFormedEntry(es[i].value.0, es[i].value.1)
      {
        ParsedEntryWellFormed(file.value[i]);
      }
      CollectWellFormed(es);
    }
  }

  lemma {:induction false} CollectWellFormed(es: seq<Option<(string, string)>>)
    requires forall i :: 0 <= i < |es| && es[i].Some? ==> WellFormedEntry(es[i].value.0, es[i].value.1)
    ensures WellFormed(Collect(es))
    decreases |es|
  {
    if es != [] {
      CollectWellFormed(es[..|es| - 1]);
    }
  }

  /** Every line the reading loop keeps gives a well-formed entry. */
  lemma ParsedEntryWellFormed(line: string)
    requires ParseExistingLine(line).Some?
    ensures WellFormedEntry(ParseExistingLine(line).value.0, ParseExistingLine(line).value.1)
  {
    var t := Trim(line);
    var (key, value) := Partition(t, '=');
    TrimIsTrimmed(key);
    TrimIsTrimmed(value);
    if Trim(key) != [] {
      assert key != [];
    }
  }

  /**
   * A written "key=value" line, whatever the value holds on one line, reads
   * back as that key and the value stripped of white space at its ends.
   */
  lemma ParseWrittenLine(key: string, value: string)
    requires WellFormedKey(key)
    ensures ParseExistingLine(key + "=" + value) == Some((key, Trim(value)))
  {
    StripWrittenLine(key, value);
    ParseStrippedLine(key + "=" + value, key, TrimEnd(value));
    TrimOfTrimEnd(value);
  }

  /** A line that strips to "key=v", for a well-formed key, reads as the key and `v` stripped. */
  lemma ParseStrippedLine(line: string, key: string, v: string)
    requires WellFormedKey(key) && (v == [] || !IsWhiteSpace(v[|v| - 1]))
    requires Trim(line) == key + "=" + v
    ensures ParseExistingLine(line) == Some((key, Trim(v)))
  {
    TrimEndsNotWhiteSpace(key);
    JoinedLine(key, '=', v);
    assert (key + "=" + v)[0] == if key != [] then key[0] else '=';
    assert (key + "=" + v)[|key|] == '=';
  }

  /** Stripping a written line removes only the white space at the end of its value. */
  lemma StripWrittenLine(key: string, value: string)
    requires WellFormedKey(key)
    ensures Trim(key + "=" + value) == key + "=" + TrimEnd(value)
  {
    TrimEndsNotWhiteSpace(key);
    var p := key + "=";
    assert p[0] == if key != [] then key[0] else '=';
    assert p[|p| - 1] == '=';
    TrimStartOfNonBlankHead(p + value);
    TrimEndAfter(p, value);
  }

  /** Every value with the white space at its ends stripped, as reading a file back does. */
  function TrimValues(d: EnvDict): (r: EnvDict)
    ensures r.keys == d.keys && r.values.Keys == d.values.Keys
    ensures forall k :: k in d.values ==> r.values[k] == Trim(d.values[k])
  {
    EnvDict(d.keys, map k | k in d.values :: Trim(d.values[k]))
  }

  /** A valid dictionary whose keys the reading loop could have produced; its values may be anything. */
  ghost predicate KeysWellFormed(d: EnvDict) {
    Valid(d) && forall k :: k in d.values ==> WellFormedKey(k)
  }

  /**
   * Reading back the file written from a dictionary with well-formed keys
   * gives every key in its place, with its value stripped.
   */
  lemma ReadRenderedTrimsValues(d: EnvDict)
    requires KeysWellFormed(d)
    ensures ReadExisting(Some(Render(d))) == TrimValues(d)
  {
    var t := TrimValues(d);
    forall i | 0 <= i < |d.keys|
      ensures ParseExistingLine(Render(d)[i]) == Some((t.keys[i], t.values[t.keys[i]]))
    {
      ParseWrittenLine(d.keys[i], d.values[d.keys[i]]);
    }
    ReadLinesAgreeWith(ParseExistingLine, Render(d), t);
    AgreesOnAllKeys(Collect(MapSeq(ParseExistingLine, Render(d))), t);
  }

  /**
   * Assigning the cookies again to the stripped read-back of a merged
   * dictionary restores it: the other values were stripped already, and the
   * cookies are assigned exactly as before.
   */
  lemma MergeRestoresStripped(d: EnvDict, session: string, csrf: string)
    requires WellFormed(d)
    ensures Merge(TrimValues(Merge(d, session, csrf)), session, csrf) == Merge(d, session, csrf)
  {
    var m := Merge(d, session, csrf);
    var t := TrimValues(m);
    MergeValues(d, session, csrf);
    forall k | k in m.values && k != SessionKey && k != CsrfKey
      ensures Trim(m.values[k]) == m.values[k]
    {
      OtherValueStripped(d, session, csrf, k);
    }
    RestoredValues(m.values, t.values, SessionKey, session, CsrfKey, csrf);
    assert Put(t, SessionKey, session) == EnvDict(m.keys, t.values[SessionKey := session]);
  }

  /**
   * Stripping every value and assigning two keys again gives back a
   * dictionary whose other values were stripped and whose two keys hold
   * exactly the values assigned.
   */
  lemma RestoredValues(m: map<string, string>, t: map<string, string>, key1: string, value1: string, key2: string, value2: string)
    requires t.Keys == m.Keys && forall k :: k in m ==> t[k] == Trim(m[k])
    requires key1 in m && key2 in m
    requires m[key2] == value2 && (key1 != key2 ==> m[key1] == value1)
    requires forall k :: k in m && k != key1 && k != key2 ==> Trim(m[k]) == m[k]
    ensures t[key1 := value1][key2 := value2] == m
  {
    var restored := t[key1 := value1][key2 := value2];
    forall k | k in m
      ensures restored[k] == m[k]
    {
      if k != key1 && k != key2 {
        assert restored[k] == t[k];
      }
    }
    SameMap(restored, m);
  }

  /** Two maps with the same keys and the same value at each key are equal. */
  lemma SameMap(a: map<string, string>, b: map<string, string>)
    requires a.Keys == b.Keys && forall k :: k in a ==> a[k] == b[k]
    ensures a == b
  {
  }

  /** A value of the merged dictionary other than the cookies was read from the file, so it is stripped. */
  lemma OtherValueStripped(d: EnvDict, session: string, csrf: string, k: string)
    requires WellFormed(d)
    requires k in Merge(d, session, csrf).values && k != SessionKey && k != CsrfKey
    ensures Trim(Merge(d, session, csrf).values[k]) == Merge(d, session, csrf).values[k]
  {
    MergeValues(d, session, csrf);
    assert k in d.values && WellFormedEntry(k, d.values[k]);
  }

  /** Merging keeps the keys well formed, whatever the cookies hold. */
  lemma MergeKeysWellFormed(d: EnvDict, session: string, csrf: string)
    requires WellFormed(d)
    ensures KeysWellFormed(Merge(d, session, csrf))
  {
    ConstantKeysWellFormed();
    MergeValues(d, session, csrf);
  }

  /**
   * Running the script twice with the same cookies leaves the same file as
   * running it once: the second run reads back what the first wrote, with
   * every value stripped, and re-assigns the same cookies, so nothing moves.
   */
  lemma RewriteIsStable(file: Option<seq<string>>, session: string, csrf: string)
    ensures WrittenEnvFile(Some(WrittenEnvFile(file, session, csrf)), session, csrf)
      == WrittenEnvFile(file, session, csrf)
  {
    var d := ReadExisting(file);
    var m := Merge(d, session, csrf);
    ReadExistingWellFormed(file);
    MergeKeysWellFormed(d, session, csrf);
    ReadRenderedTrimsValues(m);
    MergeRestoresStripped(d, session, csrf);
  }

  /** The dictionary the script writes out is well formed. */
  lemma MergedWellFormed(file: Option<seq<string>>, session: string, csrf: string)
    requires Trim(session) == session && Trim(csrf) == csrf
    ensures WellFormed(Merge(ReadExisting(file), session, csrf))
  {
    ReadExistingWellFormed(file);
    MergeWellFormed(ReadExisting(file), session, csrf);
  }

  /** Merging keeps a dictionary well formed when the cookies have no white space at their ends. */
  lemma MergeWellFormed(d: EnvDict, session: string, csrf: string)
    requires WellFormed(d) && Trim(session) == session && Trim(csrf) == csrf
    ensures WellFormed(Merge(d, session, csrf))
  {
    ConstantKeysWellFormed();
    var m := Merge(d, session, csrf);
    MergeValues(d, session, csrf);
    forall k | k in m.values ensures WellFormedEntry(k, m.values[k]) {
      if k != SessionKey && k != CsrfKey {
        assert k in d.values;
      }
    }
  }

  /** The two cookie keys have no `=`, no white space at their ends and no leading `#`. */
  lemma ConstantKeysWellFormed()
    ensures '=' !in SessionKey && Trim(SessionKey) == SessionKey && SessionKey[0] != '#'
    ensures '=' !in CsrfKey && Trim(CsrfKey) == CsrfKey && CsrfKey[0] != '#'
  {
    assert '=' !in SessionKey && Trim(SessionKey) == SessionKey && SessionKey[0] != '#' by {
      SessionKeyIsIdentifier();
      IdentifierWellFormed(SessionKey);
    }
    assert '=' !in CsrfKey && Trim(CsrfKey) == CsrfKey && CsrfKey[0] != '#' by {
      CsrfKeyIsIdentifier();
      IdentifierWellFormed(CsrfKey);
    }
  }

  lemma SessionKeyIsIdentifier()
    ensures IsIdentifier(SessionKey)
  {
  }

  lemma CsrfKeyIsIdentifier()
    ensures IsIdentifier(CsrfKey)
  {
  }

  /** Letters and underscores only. */
  predicate IsIdentifier(s: string) {
    forall i :: 0 <= i < |s| ==> 'A' <= s[i] <= 'Z' || 'a' <= s[i] <= 'z' || s[i] == '_'
  }

  /** A non-empty identifier is a well-formed key. */
  lemma IdentifierWellFormed(s: string)
    requires s != [] && IsIdentifier(s)
    ensures '=' !in s && Trim(s) == s && s[0] != '#'
  {
    TrimOfTrimmed(s);
  }

  /** Merging the same cookies into a merged dictionary changes nothing. */
  lemma MergeIdempotent(d: EnvDict, session: string, csrf: string)
    requires Valid(d)
    ensures Merge(Merge(d, session, csrf), session, csrf) == Merge(d, session, csrf)
  {
    var m := Merge(d, session, csrf);
    MergeValues(d, session, csrf);
    assert m.values[SessionKey := session] == m.values;
    assert m.values[SessionKey := session][CsrfKey := csrf] == m.values;
  }

  // ---------------------------------------------------------------- the rewrite as code

  /**
   * `write_env_file`: read the existing file line by line into a dictionary,
   * assign the two cookies, then write one "key=value" line per key.
   */
  method WriteEnvFile(file: Option<seq<string>>, session: string, csrf: string) returns (written: seq<string>)
    ensures written == WrittenEnvFile(file, session, csrf)
  {
    var keys: seq<string> := [];
    var values: map<string, string> := map[];
    if file.Some? {
      keys, values := ReadEntries(file.value);
    }
    assert EnvDict(keys, values) == ReadExisting(file);
    ghost var read := EnvDict(keys, values);

    if SessionKey !in values {
      keys := keys + [SessionKey];
    }
    values := values[SessionKey := session];
    assert EnvDict(keys, values) == Put(read, SessionKey, session);
    if CsrfKey !in values {
      keys := keys + [CsrfKey];
    }
    values := values[CsrfKey := csrf];
    assert EnvDict(keys, values) == Merge(read, session, csrf);

    written := WriteLines(keys, values);
  }

  /** The reading loop: every line that parses assigns its key, in file order. */
  method ReadEntries(lines: seq<string>) returns (keys: seq<string>, values: map<string, string>)
    ensures EnvDict(keys, values) == Collect(MapSeq(ParseExistingLine, lines))
  {
    keys, values := [], map[];
    ghost var es := MapSeq(ParseExistingLine, lines);
    for n := 0 to |lines|
      invariant EnvDict(keys, values) == Collect(es[..n])
    {
      var entry := ParseExistingLine(lines[n]);
      TakeSnoc(es, n);
      CollectSnoc(es[..n], entry);
      if entry.Some? {
        var (key, value) := entry.value;
        if key !in values {
          keys := keys + [key];
        }
        values := values[key := value];
      }
    }
    assert es[..|lines|] == es;
  }

  /** The writing loop: one "key=value" line per key, in insertion order. */
  method WriteLines(keys: seq<string>, values: map<string, string>) returns (written: seq<string>)
    requires Valid(EnvDict(keys, values))
    ensures written == Render(EnvDict(keys, values))
  {
    ghost var d := EnvDict(keys, values);
    written := [];
    for i := 0 to |keys|
      invariant written == Render(d)[..i]
    {
      TakeSnoc(Render(d), i);
      written := written + [keys[i] + "=" + values[keys[i]]];
    }
    assert Render(d)[..|keys|] == Render(d);
  }

  // ---------------------------------------------------------------- mode flags

  /** Which of the mutually exclusive flags `--local`, `--github` and `--both` were given. */
  datatype ModeFlags = ModeFlags(local: bool, github: bool, both: bool)

  /** The argument parser accepts at most one flag of the group. */
  predicate AcceptedFlags(f: ModeFlags) {
    !(f.local && f.github) && !(f.local && f.both) && !(f.github && f.both)
  }

  /** `need_gh`: the `gh` CLI is checked for, and the secrets set, with `--github` or `--both`. */
  predicate NeedsGh(f: ModeFlags) {
    f.github || f.both
  }

  /** The `.env` file is written with `--both`, or whenever `--github` is not given. */
  predicate WritesEnvFile(f: ModeFlags) {
    f.both || !f.github
  }

  /**
   * Every accepted choice has at least one output: no flag or `--local`
   * writes only the file, `--github` only the secrets, `--both` both.
   */
  lemma ModeOutputs(f: ModeFlags)
    requires AcceptedFlags(f)
    ensures WritesEnvFile(f) || NeedsGh(f)
    ensures WritesEnvFile(f) && NeedsGh(f) <==> f.both
    ensures WritesEnvFile(f) && !NeedsGh(f) <==> !f.github && !f.both
    ensures !WritesEnvFile(f) && NeedsGh(f) <==> f.github
  {
  }
}
