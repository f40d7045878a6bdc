/**
 * The `.env` file as a hand-off: `scripts/refresh-cookies.py` writes it and
 * the loader at the top of `Program.cs` reads it. The script writes the
 * cookies under "LEETKHATA__..." keys; the loader turns every "__" into ":",
 * so the application sees them under "LEETKHATA:LeetCodeSession" and
 * "LEETKHATA:LeetCodeCsrfToken".
 */
module EnvHandOff {

  import opened Text
  import opened Program
  import opened RefreshCookies

  /** The configuration keys the loader gives the two cookie lines. */
  const SessionConfigKey: string := "LEETKHATA" + ":" + "LeetCodeSession"
  const CsrfConfigKey: string := "LEETKHATA" + ":" + "LeetCodeCsrfToken"

  /** No key of `d` other than `key` reads, once "__" becomes ":", as the same configuration key. */
  ghost predicate NoCollision(d: EnvDict, key: string) {
    forall k :: k in d.values && k != key ==> ReplaceUnderscorePairs(k) != ReplaceUnderscorePairs(key)
  }

  /**
   * After the script has run, the loader reads the new session cookie and
   * the new CSRF token from the file, stripped of white space at their ends
   * as it strips every value, provided no other key of the old file reads as
   * one of the two configuration keys.
   */
  lemma RefreshedCookiesReachLoader(file: Option<seq<string>>, session: string, csrf: string)
    requires NoCollision(ReadExisting(file), SessionKey) && NoCollision(ReadExisting(file), CsrfKey)
    ensures var vars := EnvVars(WrittenEnvFile(file, session, csrf));
      && SessionConfigKey in vars && vars[SessionConfigKey] == Trim(session)
      && CsrfConfigKey in vars && vars[CsrfConfigKey] == Trim(csrf)
  {
    var d0 := ReadExisting(file);
    ReadExistingWellFormed(file);
    var d := Merge(d0, session, csrf);
    MergeKeysWellFormed(d0, session, csrf);
    MergeValues(d0, session, csrf);
    ConstantKeysWellFormed();
    MergeKeepsNoCollision(d0, session, csrf, SessionKey);
    MergeKeepsNoCollision(d0, session, csrf, CsrfKey);
    ConfigKeys();
    KeyReadStripped(d, SessionKey);
    KeyReadStripped(d, CsrfKey);
  }

  /** The merge adds only the two cookie keys, which the loader names differently. */
  lemma MergeKeepsNoCollision(d: EnvDict, session: string, csrf: string, key: string)
    requires Valid(d) && (key == SessionKey || key == CsrfKey) && NoCollision(d, key)
    ensures NoCollision(Merge(d, session, csrf), key)
  {
    MergeValues(d, session, csrf);
    ConfigKeys();
    assert |SessionConfigKey| != |CsrfConfigKey|;
  }

  /** The loader's names for the two cookie keys, which differ. */
  lemma ConfigKeys()
    ensures ReplaceUnderscorePairs(SessionKey) == SessionConfigKey
    ensures ReplaceUnderscorePairs(CsrfKey) == CsrfConfigKey
  {
    SessionConfigKeyIs();
    CsrfConfigKeyIs();
  }

  lemma SessionConfigKeyIs()
    ensures ReplaceUnderscorePairs(SessionKey) == SessionConfigKey
  {
    assert SessionKey == "LEETKHATA" + "__" + "LeetCodeSession";
    ReplaceSeparator("LEETKHATA", "LeetCodeSession");
  }

  lemma CsrfConfigKeyIs()
    ensures ReplaceUnderscorePairs(CsrfKey) == CsrfConfigKey
  {
    assert CsrfKey == "LEETKHATA" + "__" + "LeetCodeCsrfToken";
    ReplaceSeparator("LEETKHATA", "LeetCodeCsrfToken");
  }

  /** A prefix and a name without `_`, joined by "__", read as the prefix and the name joined by ":". */
  lemma ReplaceSeparator(prefix: string, name: string)
    requires '_' !in prefix && '_' !in name
    ensures ReplaceUnderscorePairs(prefix + "__" + name) == prefix + ":" + name
  {
    var tail := "__" + name;
    assert prefix + "__" + name == prefix + tail;
    assert prefix == [] || prefix[|prefix| - 1] != '_';
    ReplaceUnderscorePairsAppend(prefix, tail);
    assert tail[2..] == name;
    assert ReplaceUnderscorePairs(tail) == ":" + name;
  }

  /**
   * In the rendering of a dictionary with well-formed keys, the line of a
   * non-empty key is the last line the loader reads under that key's
   * configuration name, so the loader ends up with that key's value,
   * stripped.
   */
  lemma KeyReadStripped(d: EnvDict, key: string)
    requires KeysWellFormed(d) && key in d.values && key != [] && NoCollision(d, key)
    ensures var vars := EnvVars(Render(d));
      ReplaceUnderscorePairs(key) in vars && vars[ReplaceUnderscorePairs(key)] == Trim(d.values[key])
  {
    RenderedLinesRead(d);
    KeyReadAsLastWith(ParseEnvLine, d, key, Trim);
  }

  /** For a well-formed dictionary, whose values are stripped already, the loader ends with the value itself. */
  lemma KeyReadAsLast(d: EnvDict, key: string)
    requires WellFormed(d) && key in d.values && key != [] && NoCollision(d, key)
    ensures var vars := EnvVars(Render(d));
      ReplaceUnderscorePairs(key) in vars && vars[ReplaceUnderscorePairs(key)] == d.values[key]
  {
    assert WellFormedEntry(key, d.values[key]);
    KeyReadStripped(d, key);
  }

  /** What the loader makes of the line written for `key` and `value`. */
  function LoadedEntry(key: string, value: string): Option<(string, string)> {
    if key == [] then None else Some((ReplaceUnderscorePairs(key), value))
  }

  /**
   * The same, for any line reader that reads each written line as
   * `LoadedEntry` of its key and of `f` applied to its value.
   */
  lemma KeyReadAsLastWith(read: string -> Option<(string, string)>, d: EnvDict, key: string, f: string -> string)
    requires Valid(d) && key in d.values && key != [] && NoCollision(d, key)
    requires forall j :: 0 <= j < |d.keys| ==> read(Render(d)[j]) == LoadedEntry(d.keys[j], f(d.values[d.keys[j]]))
    ensures var vars := Apply(map[], MapSeq(read, Render(d)));
      ReplaceUnderscorePairs(key) in vars && vars[ReplaceUnderscorePairs(key)] == f(d.values[key])
  {
    var es := MapSeq(read, Render(d));
    var p :| 0 <= p < |d.keys| && d.keys[p] == key;
    assert es[p] == Some((ReplaceUnderscorePairs(key), f(d.values[key])));
    forall j | p < j < |es| && es[j].Some?
      ensures es[j].value.0 != es[p].value.0
    {
      assert d.keys[j] != d.keys[p];
    }
    ApplyLastEntryWins(es, p);
  }

  /** Each written line reads as `LoadedEntry` of its key and its stripped value. */
  lemma RenderedLinesRead(d: EnvDict)
    requires KeysWellFormed(d)
    ensures forall j :: 0 <= j < |d.keys| ==>
      ParseEnvLine(Render(d)[j]) == LoadedEntry(d.keys[j], Trim(d.values[d.keys[j]]))
  {
    forall j | 0 <= j < |d.keys|
      ensures ParseEnvLine(Render(d)[j]) == LoadedEntry(d.keys[j], Trim(d.values[d.keys[j]]))
    {
      LoaderReadsWrittenLine(d.keys[j], d.values[d.keys[j]]);
    }
  }

  /**
   * The loader's reading of a line written for a well-formed key and any
   * value: nothing for an empty key (the line starts with `=`), otherwise
   * the key with "__" turned into ":" and the value stripped.
   */
  lemma LoaderReadsWrittenLine(key: string, value: string)
    requires WellFormedKey(key)
    ensures ParseEnvLine(key + "=" + value) == LoadedEntry(key, Trim(value))
  {
    var line := key + "=" + value;
    var v := TrimEnd(value);
    var t := key + "=" + v;
    assert Trim(line) == t by {
      StripWrittenLine(key, value);
    }
    assert IndexOf(t, '=') == |key| && t[..|key|] == key && t[|key| + 1..] == v by {
      TrimEndsNotWhiteSpace(key);
      JoinedLine(key, '=', v);
    }
    if key == [] {
      assert t[0] == '=';
      assert ParseEnvLine(line).None?;
    } else {
      assert t[0] == key[0];
      assert ParseEnvLine(line).Some?;
      ParseEnvLineEntry(line);
      assert Trim(v) == Trim(value) by {
        TrimOfTrimEnd(value);
      }
      assert ParseEnvLine(line).value == (ReplaceUnderscorePairs(Trim(key)), Trim(v));
    }
  }

  /**
   * The loader's reading of one line of a well-formed dictionary: nothing
   * for an empty key, otherwise the converted key and exactly the value
   * written.
   */
  lemma RenderedLineReads(d: EnvDict, j: nat)
    requires WellFormed(d) && j < |d.keys|
    ensures ParseEnvLine(Render(d)[j]) == LoadedEntry(d.keys[j], d.values[d.keys[j]])
  {
    var k := d.keys[j];
    var v := d.values[k];
    assert WellFormedEntry(k, v);
    TrimEndsNotWhiteSpace(k);
    TrimEndsNotWhiteSpace(v);
    if k == [] {
      EmptyKeyLineSkipped(v);
    } else {
      ParseWrittenEnvLine(k, v);
    }
  }

  /** A written line with an empty key starts with `=`, and the loader skips it. */
  lemma EmptyKeyLineSkipped(value: string)
    requires value != [] ==> !IsWhiteSpace(value[|value| - 1])
    ensures ParseEnvLine([] + "=" + value) == None
  {
    JoinedLine([], '=', value);
    assert ([] + "=" + value)[0] == '=';
  }
}
