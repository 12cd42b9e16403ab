/** The pure parts of the Go settings-diff formatting: the minutes suffix of ".ms"
    settings, the rows handed to the table writer, and the diff as a nested map. */
module ApplyFormat {
  import opened Wrappers
  import opened Text
  import opened Decimal

  /** The settings of a topic config as `HasKey` and `GetValueStr` see them: the keys it
      has, each with the text of its value or the error of formatting it. */
  type TopicSettings = map<string, Result<string, string>>

  const MsPerMinute: int := 60000

  /** `timeSuffix`: " (N min)" for a whole number N >= 1 of minutes written in
      milliseconds, and nothing for any other text. */
  function TimeSuffix(msText: string): (r: string)
    ensures r != "" <==>
              ParseInt64(msText).Some? && ParseInt64(msText).value >= MsPerMinute
              && ParseInt64(msText).value % MsPerMinute == 0
  {
    match ParseInt64(msText)
    case None => ""
    case Some(ms) =>
      if ms < MsPerMinute then ""
      else if ms % MsPerMinute != 0 then ""
      else " (" + IntToString(ms / MsPerMinute) + " min)"
  }

  /** Any text that ParseInt parses to N minutes in milliseconds, N >= 1, gets that
      number of minutes as its suffix: "+120000" and "0120000" as well as "120000". */
  lemma TimeSuffixOfMinutes(msText: string, minutes: int)
    requires minutes >= 1 && ParseInt64(msText) == Some(minutes * MsPerMinute)
    ensures TimeSuffix(msText) == " (" + IntToString(minutes) + " min)"
  {
    assert (minutes * MsPerMinute) / MsPerMinute == minutes;
  }

  /** The suffix depends only on the parsed value, never on how it is written. */
  lemma TimeSuffixOfValue(a: string, b: string)
    requires ParseInt64(a) == ParseInt64(b)
    ensures TimeSuffix(a) == TimeSuffix(b)
  {
  }

  /** The decimal text of a whole number of minutes, in milliseconds. */
  lemma TimeSuffixOfCanonical(minutes: int)
    requires minutes >= 1 && minutes * MsPerMinute <= Int64Max
    ensures TimeSuffix(IntToString(minutes * MsPerMinute)) == " (" + IntToString(minutes) + " min)"
  {
    ParseIntToString(minutes * MsPerMinute);
    TimeSuffixOfMinutes(IntToString(minutes * MsPerMinute), minutes);
  }

  /** A leading '+' or '0' in front of the digits does not change the suffix. */
  lemma TimeSuffixOfPrefixed(t: string, minutes: int)
    requires |t| > 0 && AllDigits(t)
    requires minutes >= 1 && ParseInt64(t) == Some(minutes * MsPerMinute)
    ensures TimeSuffix("+" + t) == " (" + IntToString(minutes) + " min)"
    ensures TimeSuffix("0" + t) == " (" + IntToString(minutes) + " min)"
  {
    PlusSignParses(t);
    LeadingZeroParses(t);
    TimeSuffixOfMinutes("+" + t, minutes);
    TimeSuffixOfMinutes("0" + t, minutes);
  }

  /** The decimal text of two minutes in milliseconds parses to its value. */
  lemma TwoMinutesParses()
    ensures AllDigits("120000") && ParseInt64("120000") == Some(2 * MsPerMinute)
  {
    assert IntToString(120000) == "120000";
    ParsedExample(120000, "120000");
  }

  /** "+120000" and "0120000" both mean two minutes. */
  lemma TimeSuffixSignedExamples()
    ensures TimeSuffix("+120000") == " (2 min)"
    ensures TimeSuffix("0120000") == " (2 min)"
  {
    TwoMinutesParses();
    TimeSuffixOfPrefixed("120000", 2);
    assert IntToString(2) == "2";
    assert "+" + "120000" == "+120000";
    assert "0" + "120000" == "0120000";
  }

  /** Values below a minute, negative ones included, and texts that are not a base-10
      int64 get no suffix. */
  lemma TimeSuffixEmpty(msText: string)
    ensures ParseInt64(msText).None? ==> TimeSuffix(msText) == ""
    ensures ParseInt64(msText).Some? && ParseInt64(msText).value < MsPerMinute ==> TimeSuffix(msText) == ""
  {
  }

  lemma TimeSuffixOneMinute()
    ensures TimeSuffix("60000") == " (1 min)"
  {
    TimeSuffixOfCanonical(1);
    assert IntToString(60000) == "60000";
  }

  /** Texts that parse but are not whole minutes. */
  lemma TimeSuffixExamples(i: int, text: string)
    requires || (i == 59999 && text == "59999")
             || (i == 90000 && text == "90000")
             || (i == -60000 && text == "-60000")
    ensures TimeSuffix(text) == ""
  {
    assert IntToString(i) == text;
    ParsedExample(i, text);
  }

  lemma TimeSuffixUnparsed()
    ensures TimeSuffix("1m") == ""
  {
    assert !IsDigit("1m"[1]);
  }

  lemma ParsedExample(i: int, text: string)
    requires Int64Min <= i <= Int64Max && IntToString(i) == text
    ensures ParseInt64(text) == Some(i)
  {
    ParseIntToString(i);
  }

  /** The value of a key in the cluster's config map; Go's lookup gives "" for a
      missing key. */
  function ClusterValue(configMap: map<string, string>, key: string): string
  {
    if key in configMap then configMap[key] else ""
  }

  /** A key whose settings value cannot be formatted. */
  predicate Fails(settings: TopicSettings, key: string)
  {
    key in settings && settings[key].Failure?
  }

  /** The config value of a key: "" when the settings lack it. A key whose value fails
      to format never reaches a row, so what this gives for it does not matter. */
  function ConfigValue(settings: TopicSettings, key: string): string
  {
    if key in settings && settings[key].Success? then settings[key].value else ""
  }

  predicate IsTimeKey(key: string)
  {
    HasSuffix(key, ".ms")
  }

  /** A value as shown in a table row: time settings carry their minutes suffix. */
  function Shown(key: string, value: string): (r: string)
    ensures HasPrefix(r, value)
    ensures !IsTimeKey(key) ==> r == value
    ensures IsTimeKey(key) ==> r[|value|..] == TimeSuffix(value)
  {
    if IsTimeKey(key) then value + TimeSuffix(value) else value
  }

  /** The position of the first key that fails, or the number of keys when none does. */
  function FirstFailure(settings: TopicSettings, keys: seq<string>): (k: nat)
    ensures k <= |keys|
    ensures forall j :: 0 <= j < k ==> !Fails(settings, keys[j])
    ensures k < |keys| ==> Fails(settings, keys[k])
  {
    if keys == [] then 0
    else if Fails(settings, keys[0]) then 0
    else 1 + FirstFailure(settings, keys[1..])
  }

  /** The row of `FormatSettingsDiff` for a key: the key, its cluster value, its config
      value. */
  function DiffRow(settings: TopicSettings, configMap: map<string, string>, key: string): seq<string>
  {
    [key, Shown(key, ClusterValue(configMap, key)), Shown(key, ConfigValue(settings, key))]
  }

  /** The loop of `FormatSettingsDiff` up to the table writer: one row per key in order,
      or the formatting error of the first key whose settings value fails. */
  method SettingsDiffRows(settings: TopicSettings, configMap: map<string, string>, diffKeys: seq<string>)
    returns (r: Result<seq<seq<string>>, string>)
    ensures r.Success? <==> FirstFailure(settings, diffKeys) == |diffKeys|
    ensures r.Failure? ==> r.error == settings[diffKeys[FirstFailure(settings, diffKeys)]].error
    ensures r.Success? ==> |r.value| == |diffKeys|
    ensures r.Success? ==> forall k :: 0 <= k < |diffKeys| ==>
              !Fails(settings, diffKeys[k]) && r.value[k] == DiffRow(settings, configMap, diffKeys[k])
  {
    var rows: seq<seq<string>> := [];
    var i := 0;
    while i < |diffKeys|
      invariant i <= |diffKeys| && |rows| == i
      invariant forall j :: 0 <= j < i ==> !Fails(settings, diffKeys[j])
      invariant forall j :: 0 <= j < i ==> rows[j] == DiffRow(settings, configMap, diffKeys[j])
    {
      var key := diffKeys[i];
      var configValue := "";
      if key in settings {
        var v := settings[key];
        if v.Failure? {
          FirstFailureAt(settings, diffKeys, i);
          return Failure(v.error);
        }
        configValue := v.value;
      }
      assert configValue == ConfigValue(settings, key);
      var row := [key, Shown(key, ClusterValue(configMap, key)), Shown(key, configValue)];
      assert row == DiffRow(settings, configMap, key);
      rows := rows + [row];
      i := i + 1;
    }
    FirstFailureNone(settings, diffKeys);
    r := Success(rows);
  }

  lemma {:induction false} FirstFailureAt(settings: TopicSettings, keys: seq<string>, i: nat)
    requires i < |keys| && Fails(settings, keys[i])
    requires forall j :: 0 <= j < i ==> !Fails(settings, keys[j])
    ensures FirstFailure(settings, keys) == i
  {
    if i > 0 {
      FirstFailureAt(settings, keys[1..], i - 1);
    }
  }

  lemma {:induction false} FirstFailureNone(settings: TopicSettings, keys: seq<string>)
    requires forall j :: 0 <= j < |keys| ==> !Fails(settings, keys[j])
    ensures FirstFailure(settings, keys) == |keys|
  {
    if keys != [] {
      FirstFailureNone(settings, keys[1..]);
    }
  }

  /** The rows of `FormatMissingKeys`: each missing key with its cluster value, the
      minutes suffix on time settings. */
  function MissingKeysRows(configMap: map<string, string>, missingKeys: seq<string>): (rows: seq<seq<string>>)
    ensures |rows| == |missingKeys|
    ensures forall k :: 0 <= k < |rows| ==>
              |rows[k]| == 2 && rows[k][0] == missingKeys[k]
    ensures forall k :: 0 <= k < |rows| && !IsTimeKey(missingKeys[k]) ==>
              rows[k][1] == ClusterValue(configMap, missingKeys[k])
    ensures forall k :: 0 <= k < |rows| && IsTimeKey(missingKeys[k]) ==>
              rows[k][1] == ClusterValue(configMap, missingKeys[k]) + TimeSuffix(ClusterValue(configMap, missingKeys[k]))
  {
    seq(|missingKeys|, k requires 0 <= k < |missingKeys| =>
      [missingKeys[k], Shown(missingKeys[k], ClusterValue(configMap, missingKeys[k]))])
  }

  // ---------------------------------------------------------------------------
  // The diff as a map

  /** A value of the inner map: the "update" marker or a key's two values. */
  datatype DiffEntry = ActionTag(action: string) | Change(current: string, updated: string)

  const ActionKey := "Action"

  function Entry(settings: TopicSettings, configMap: map<string, string>, key: string): DiffEntry
  {
    Change(ClusterValue(configMap, key), ConfigValue(settings, key))
  }

  /** What the inner map holds after the keys `keys` were processed in order. */
  ghost predicate DiffMapOf(settings: TopicSettings, configMap: map<string, string>, keys: seq<string>,
                            inner: map<string, DiffEntry>)
  {
    && inner.Keys == (set k | k in keys) + (if keys == [] then {} else {ActionKey})
    && (forall j :: 0 <= j < |keys| && keys[j] != ActionKey ==> inner[keys[j]] == Entry(settings, configMap, keys[j]))
    && (keys != [] ==>
          inner[ActionKey] ==
            if keys[|keys| - 1] == ActionKey then Entry(settings, configMap, ActionKey) else ActionTag("update"))
  }

  /** The inner map after the keys `keys` were processed in order: each key stores the
      "update" marker, then its own values. */
  function DiffMapFold(settings: TopicSettings, configMap: map<string, string>, keys: seq<string>)
    : map<string, DiffEntry>
  {
    if keys == [] then map[]
    else
      var n := |keys| - 1;
      DiffMapFold(settings, configMap, keys[..n])[ActionKey := ActionTag("update")]
        [keys[n] := Entry(settings, configMap, keys[n])]
  }

  /** The map built key by key holds exactly what `DiffMapOf` describes. */
  lemma {:induction false} DiffMapFoldMeaning(settings: TopicSettings, configMap: map<string, string>,
                                              keys: seq<string>)
    ensures DiffMapOf(settings, configMap, keys, DiffMapFold(settings, configMap, keys))
  {
    if keys != [] {
      var n := |keys| - 1;
      DiffMapFoldMeaning(settings, configMap, keys[..n]);
      DiffMapStep(settings, configMap, keys, n, DiffMapFold(settings, configMap, keys[..n]),
                  DiffMapFold(settings, configMap, keys));
      assert keys[..n + 1] == keys;
    }
  }

  lemma DiffMapFoldStep(settings: TopicSettings, configMap: map<string, string>, keys: seq<string>, i: nat)
    requires i < |keys|
    ensures DiffMapFold(settings, configMap, keys[..i + 1])
              == DiffMapFold(settings, configMap, keys[..i])[ActionKey := ActionTag("update")]
                   [keys[i] := Entry(settings, configMap, keys[i])]
  {
    assert keys[..i + 1][..i] == keys[..i];
  }

  /** `FormatSettingsDiffMap`: a single entry for the topic, holding each diff key's
      current and updated value and, once there is a key, "Action": "update". A diff key
      named "Action" shares the marker's slot: the later write wins. */
  method SettingsDiffMap(topicName: string, settings: TopicSettings, configMap: map<string, string>,
                         diffKeys: seq<string>)
    returns (r: Result<map<string, map<string, DiffEntry>>, string>)
    ensures r.Success? <==> FirstFailure(settings, diffKeys) == |diffKeys|
    ensures r.Failure? ==> r.error == settings[diffKeys[FirstFailure(settings, diffKeys)]].error
    ensures r.Success? ==> r.value.Keys == {topicName}
    ensures r.Success? ==> r.value[topicName] == DiffMapFold(settings, configMap, diffKeys)
  {
    var inner: map<string, DiffEntry> := map[];
    var i := 0;
    while i < |diffKeys|
      invariant i <= |diffKeys| && i <= FirstFailure(settings, diffKeys)
      invariant inner == DiffMapFold(settings, configMap, diffKeys[..i])
    {
      var key := diffKeys[i];
      var configValue := "";
      if key in settings {
        var v := settings[key];
        if v.Failure? {
          return Failure(v.error);
        }
        configValue := v.value;
      }
      DiffMapFoldStep(settings, configMap, diffKeys, i);
      inner := inner[ActionKey := ActionTag("update")];
      inner := inner[key := Change(ClusterValue(configMap, key), configValue)];
      i := i + 1;
    }
    assert diffKeys[..i] == diffKeys;
    r := Success(map[topicName := inner]);
  }

  lemma DiffMapStep(settings: TopicSettings, configMap: map<string, string>, keys: seq<string>, i: nat,
                    before: map<string, DiffEntry>, after: map<string, DiffEntry>)
    requires i < |keys|
    requires DiffMapOf(settings, configMap, keys[..i], before)
    requires after == before[ActionKey := ActionTag("update")][keys[i] := Entry(settings, configMap, keys[i])]
    ensures DiffMapOf(settings, configMap, keys[..i + 1], after)
  {
    var prefix, next := keys[..i], keys[..i + 1];
    assert next == prefix + [keys[i]];
    DiffMapKeysStep(prefix, keys[i]);
    forall j | 0 <= j < |next| && next[j] != ActionKey
      ensures after[next[j]] == Entry(settings, configMap, next[j])
    {
      if j < i && next[j] != keys[i] {
        assert prefix[j] == next[j];
      }
    }
  }

  lemma DiffMapKeysStep(prefix: seq<string>, key: string)
    ensures (set k | k in prefix + [key]) == (set k | k in prefix) + {key}
  {
  }
}
