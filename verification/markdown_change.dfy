/** The older markdown notifier of the apply wrapper script: one two-column markdown
    table per changed topic, with a whole-text replacement when it grows too long. */
module MarkdownChange {
  import opened Wrappers
  import opened Text
  import opened PyStr
  import opened TopicChange
  import Notify

  /** One element of the `newTopics` / `updatedTopics` lists of an apply line. `hasError`
      is the truthiness of its "error" value. The create keys are read only for
      "create" and the update keys only for "update". The entry lists are JSON arrays
      that may be null (Go marshals a nil slice pointer as null); `None` is null. */
  datatype Change = Change(
    topic: string, action: string, hasError: bool,
    configEntries: Option<seq<ConfigEntry>>, numPartitions: Cell, replicationFactor: Cell,
    newConfigEntries: Option<seq<ConfigEntry>>, updatedConfigEntries: Option<seq<ConfigUpdate>>,
    missingKeys: Option<seq<string>>)

  /** A labelled line of the table, in the order the fields are inserted. */
  datatype Field = Field(heading: string, value: string)

  // ---------------------------------------------------------------------------
  // Config lists as text

  function ConfigItem(e: ConfigEntry): string
  {
    e.name + "=" + e.value + ", "
  }

  function UpdateItem(u: ConfigUpdate): string
  {
    u.name + ": " + u.current + " --> " + u.updated + ", "
  }

  /** "name=value, " for each entry, in order. */
  function ConfigsText(entries: seq<ConfigEntry>): string
  {
    if entries == [] then "" else ConfigsText(entries[..|entries| - 1]) + ConfigItem(entries[|entries| - 1])
  }

  /** "name: current --> updated, " for each entry, in order. */
  function UpdatesText(entries: seq<ConfigUpdate>): string
  {
    if entries == [] then "" else UpdatesText(entries[..|entries| - 1]) + UpdateItem(entries[|entries| - 1])
  }

  /** The text of a list of entries is the text of its parts one after the other. */
  lemma {:induction false} ConfigsTextAppend(a: seq<ConfigEntry>, b: seq<ConfigEntry>)
    ensures ConfigsText(a + b) == ConfigsText(a) + ConfigsText(b)
  {
    if b != [] {
      var b' := b[..|b| - 1];
      assert (a + b)[..|a + b| - 1] == a + b';
      ConfigsTextAppend(a, b');
    } else {
      assert a + b == a;
    }
  }

  lemma {:induction false} UpdatesTextAppend(a: seq<ConfigUpdate>, b: seq<ConfigUpdate>)
    ensures UpdatesText(a + b) == UpdatesText(a) + UpdatesText(b)
  {
    if b != [] {
      var b' := b[..|b| - 1];
      assert (a + b)[..|a + b| - 1] == a + b';
      UpdatesTextAppend(a, b');
    } else {
      assert a + b == a;
    }
  }

  /** The loop of `_get_new_change_fields` that appends one item per entry. */
  method AccumulateConfigs(entries: seq<ConfigEntry>) returns (configs: string)
    ensures configs == ConfigsText(entries)
  {
    configs := "";
    var i := 0;
    while i < |entries|
      invariant i <= |entries|
      invariant configs == ConfigsText(entries[..i])
    {
      assert entries[..i + 1][..i] == entries[..i];
      configs := configs + ConfigItem(entries[i]);
      i := i + 1;
    }
    assert entries[..i] == entries;
  }

  /** `str()` of the missing-keys value: a list through `repr` of each key, or "None". */
  function MissingKeysText(keys: Option<seq<string>>): string
  {
    match keys
    case Some(ks) => StrListText(ks)
    case None => "None"
  }

  // ---------------------------------------------------------------------------
  // The table

  /** What Python raises when a `for` loop meets null. */
  const NotIterable := "'NoneType' object is not iterable"

  /** `_get_new_change_fields`: the configs, then `str()` of the partition count and of
      the replication factor; iterating a null `configEntries` raises. */
  function NewChangeFields(c: Change): (r: Result<seq<Field>, string>)
    ensures r.Failure? <==> c.configEntries.None?
    ensures r.Failure? ==> r.error == NotIterable
    ensures r.Success? ==>
              && |r.value| == 3
              && r.value[0] == Field("Configs", ConfigsText(c.configEntries.value))
              && r.value[1] == Field("Partition Count", CellText(c.numPartitions))
              && r.value[2] == Field("Replication Factor", CellText(c.replicationFactor))
  {
    match c.configEntries
    case None => Failure(NotIterable)
    case Some(entries) =>
      Success([Field("Configs", ConfigsText(entries)),
               Field("Partition Count", CellText(c.numPartitions)),
               Field("Replication Factor", CellText(c.replicationFactor))])
  }

  const Fixme := "FIXME"

  /** `_get_update_change_fields`: the partition count and replication factor are not
      reported for updates and read "FIXME"; the missing keys are shown as `str()` of the
      raw value. Iterating a null `newConfigEntries` or `updatedConfigEntries` raises. */
  function UpdateChangeFields(c: Change): (r: Result<seq<Field>, string>)
    ensures r.Failure? <==> c.newConfigEntries.None? || c.updatedConfigEntries.None?
    ensures r.Failure? ==> r.error == NotIterable
    ensures r.Success? ==>
              && |r.value| == 5
              && r.value[0] == Field("New Configs", ConfigsText(c.newConfigEntries.value))
              && r.value[1] == Field("Updated Configs", UpdatesText(c.updatedConfigEntries.value))
              && r.value[2] == Field("Configs Missing from Topicctl", MissingKeysText(c.missingKeys))
              && r.value[3] == Field("Partition Count", Fixme)
              && r.value[4] == Field("Replication Factor", Fixme)
  {
    if c.newConfigEntries.None? || c.updatedConfigEntries.None? then Failure(NotIterable)
    else
      Success([Field("New Configs", ConfigsText(c.newConfigEntries.value)),
               Field("Updated Configs", UpdatesText(c.updatedConfigEntries.value)),
               Field("Configs Missing from Topicctl", MissingKeysText(c.missingKeys)),
               Field("Partition Count", Fixme),
               Field("Replication Factor", Fixme)])
  }

  const InvalidAction := "Invalid action key, must be 'create' or 'update'"

  const ErrorNotice :=
    "**" + "Errors occurred while applying this topic. More changes may exist that were not applied." + "**\n"

  const Wrapper := "%%%\n"

  /** The two header lines and the Topic Name and Action rows. */
  function TableHead(topic: string, action: string): string
  {
    "|||\n" + "|:--------------------------:|-|\n" + "| **Topic Name**             |" + topic + "|\n"
    + "| **Action (create/update)** |" + action + "|"
  }

  /** One row of the table: `|         **heading**        |value|` on a new line. */
  function FieldLine(f: Field): string
  {
    "\n|         **" + f.heading + "**        |" + f.value + "|"
  }

  function FieldLines(fs: seq<Field>): string
  {
    if fs == [] then "" else FieldLine(fs[0]) + FieldLines(fs[1..])
  }

  /** The fields an action reports, or the error raised while collecting them; any other
      action raises the invalid-action error. */
  function ActionFields(c: Change): Result<seq<Field>, string>
  {
    if c.action == "create" then NewChangeFields(c)
    else if c.action == "update" then UpdateChangeFields(c)
    else Failure(InvalidAction)
  }

  /** The inputs for which `_markdown_table_from_change` raises. */
  predicate Raises(c: Change)
  {
    || (c.action != "create" && c.action != "update")
    || (c.action == "create" && c.configEntries.None?)
    || (c.action == "update" && (c.newConfigEntries.None? || c.updatedConfigEntries.None?))
  }

  function ErrorLead(hasError: bool): string
  {
    if hasError then ErrorNotice else ""
  }

  /** `_markdown_table_from_change`: the fields of the action, or the error raised for
      any other action or while collecting the fields; the error notice in front when the
      change reports an error; and the whole inside "%%%" lines. */
  function MarkdownTable(c: Change): (r: Result<string, string>)
    ensures r.Failure? <==> Raises(c)
    ensures r.Failure? ==>
              r.error == if c.action != "create" && c.action != "update" then InvalidAction else NotIterable
  {
    match ActionFields(c)
    case Failure(e) => Failure(e)
    case Success(fs) =>
      Success(Wrapper + (ErrorLead(c.hasError) + (TableHead(c.topic, c.action) + FieldLines(fs))) + "\n%%%")
  }

  /** A field list renders as one line per field, in order. */
  lemma FieldLinesSingle(f: Field)
    ensures FieldLines([f]) == FieldLine(f)
  {
  }

  lemma {:induction false} FieldLinesAppend(a: seq<Field>, b: seq<Field>)
    ensures FieldLines(a + b) == FieldLines(a) + FieldLines(b)
  {
    if a != [] {
      assert (a + b)[1..] == a[1..] + b;
      FieldLinesAppend(a[1..], b);
    } else {
      assert a + b == b;
    }
  }

  /** The rendered table of a create: the head, then the configs, partition count and
      replication factor lines, each `|         **heading**        |value|`. */
  lemma CreateTableRows(c: Change)
    requires c.action == "create" && c.configEntries.Some?
    ensures MarkdownTable(c) == Success(
              Wrapper + (ErrorLead(c.hasError) + (TableHead(c.topic, c.action)
                + (FieldLine(Field("Configs", ConfigsText(c.configEntries.value)))
                   + FieldLine(Field("Partition Count", CellText(c.numPartitions)))
                   + FieldLine(Field("Replication Factor", CellText(c.replicationFactor))))))
              + "\n%%%")
  {
    var fs := NewChangeFields(c).value;
    Lines3(fs);
  }

  /** The rendered table of an update: the head, then the new, updated and missing
      configs and the two "FIXME" lines. */
  lemma UpdateTableRows(c: Change)
    requires c.action == "update" && c.newConfigEntries.Some? && c.updatedConfigEntries.Some?
    ensures MarkdownTable(c) == Success(
              Wrapper + (ErrorLead(c.hasError) + (TableHead(c.topic, c.action)
                + (FieldLine(Field("New Configs", ConfigsText(c.newConfigEntries.value)))
                   + FieldLine(Field("Updated Configs", UpdatesText(c.updatedConfigEntries.value)))
                   + FieldLine(Field("Configs Missing from Topicctl", MissingKeysText(c.missingKeys)))
                   + FieldLine(Field("Partition Count", Fixme))
                   + FieldLine(Field("Replication Factor", Fixme)))))
              + "\n%%%")
  {
    var fs := UpdateChangeFields(c).value;
    Lines5(fs);
  }

  lemma Lines3(fs: seq<Field>)
    requires |fs| == 3
    ensures FieldLines(fs) == FieldLine(fs[0]) + FieldLine(fs[1]) + FieldLine(fs[2])
  {
    assert fs == [fs[0]] + [fs[1]] + [fs[2]];
    FieldLinesAppend([fs[0]] + [fs[1]], [fs[2]]);
    FieldLinesAppend([fs[0]], [fs[1]]);
  }

  lemma Lines5(fs: seq<Field>)
    requires |fs| == 5
    ensures FieldLines(fs) == FieldLine(fs[0]) + FieldLine(fs[1]) + FieldLine(fs[2]) + FieldLine(fs[3])
                              + FieldLine(fs[4])
  {
    assert fs == fs[..3] + fs[3..];
    FieldLinesAppend(fs[..3], fs[3..]);
    Lines3(fs[..3]);
    assert fs[3..] == [fs[3]] + [fs[4]];
    FieldLinesAppend([fs[3]], [fs[4]]);
  }

  /** A rendered table starts with "%%%" and the error notice exactly when the change
      reports an error, goes on with the head, and ends with a "%%%" line. */
  lemma MarkdownTableFrame(c: Change)
    requires !Raises(c)
    ensures var text := MarkdownTable(c).value;
            && HasPrefix(text, Wrapper) && HasSuffix(text, "\n%%%")
            && (HasPrefix(text, Wrapper + ErrorNotice) <==> c.hasError)
            && (!c.hasError ==> HasPrefix(text, Wrapper + TableHead(c.topic, c.action)))
  {
    var head := TableHead(c.topic, c.action);
    var rest := head + FieldLines(ActionFields(c).value);
    assert ErrorNotice[0] == '*';
    assert head[0] == '|';
    Framed(Wrapper, ErrorLead(c.hasError), rest, "\n%%%");
    if !c.hasError {
      Framed(Wrapper, head, FieldLines(ActionFields(c).value), "\n%%%");
      assert "" + rest == rest;
      FirstAfter(Wrapper, rest, "\n%%%", ErrorNotice);
    }
  }

  lemma Framed(w: string, lead: string, rest: string, tail: string)
    ensures var text := w + (lead + rest) + tail;
            HasPrefix(text, w) && HasPrefix(text, w + lead) && HasSuffix(text, tail)
  {
    var text := w + (lead + rest) + tail;
    assert text[..|w|] == w;
    assert text[..|w + lead|] == w + lead;
    assert text[|text| - |tail|..] == tail;
  }

  /** A text whose part after `w` starts differently from `other` does not start with
      `w + other`. */
  lemma FirstAfter(w: string, rest: string, tail: string, other: string)
    requires rest != [] && other != [] && rest[0] != other[0]
    ensures !HasPrefix(w + ("" + rest) + tail, w + other)
  {
    var text := w + ("" + rest) + tail;
    assert text[|w|] == rest[0];
    assert (w + other)[|w|] == other[0];
  }

  // ---------------------------------------------------------------------------
  // One apply line

  const TextLimit: nat := 3950
  const OversizeText := "Changes exceed 4000 character limit, check topicctl logs for details on changes"

  /** A text longer than the limit is replaced whole by a fixed notice, never cut. */
  function CapText(text: string): (r: string)
    ensures |r| <= TextLimit
    ensures r == text || r == OversizeText
  {
    if |text| > TextLimit then OversizeText else text
  }

  lemma CapTextKeeps(text: string)
    ensures CapText(text) == text <==> |text| <= TextLimit
  {
  }

  /** The changes of a line: `newTopics` when it is a non-empty list, otherwise
      `updatedTopics`, whose null value raises when iterated. */
  function SelectChanges(newTopics: Option<seq<Change>>, updatedTopics: Option<seq<Change>>): (r: Result<seq<Change>, string>)
    ensures Items(newTopics) != [] ==> r == Success(newTopics.value)
    ensures Items(newTopics) == [] ==> (r.Success? <==> updatedTopics.Some?)
    ensures Items(newTopics) == [] && updatedTopics.Some? ==> r == Success(updatedTopics.value)
  {
    if Items(newTopics) != [] then Success(newTopics.value)
    else if updatedTopics.Some? then Success(updatedTopics.value)
    else Failure(NotIterable)
  }

  /** What is sent for one change: a title, the capped text, the tags. */
  datatype Notice = Notice(title: string, text: string, tags: map<string, string>)

  /** The three fixed tags of the wrapper script, and the topic's name. */
  function Tags(topic: string, region: string): (tags: map<string, string>)
    ensures tags.Keys == {"source", "source_category", "sentry_region", "topicctl_topic"}
    ensures tags["sentry_region"] == region && tags["topicctl_topic"] == topic
  {
    map["source" := "topicctl", "source_category" := "infra_tools", "sentry_region" := region,
        "topicctl_topic" := topic]
  }

  function ChangeNotice(c: Change, dryRun: bool, region: string): (n: Notice)
    requires MarkdownTable(c).Success?
    ensures |n.text| <= TextLimit
    ensures |MarkdownTable(c).value| <= TextLimit ==> n.text == MarkdownTable(c).value
    ensures |MarkdownTable(c).value| > TextLimit ==> n.text == OversizeText
    ensures n.title == Notify.Title(dryRun, c.topic, region)
    ensures n.tags == Tags(c.topic, region)
    ensures "topicctl_topic" in n.tags && n.tags["topicctl_topic"] == c.topic
  {
    Notice(Notify.Title(dryRun, c.topic, region), CapText(MarkdownTable(c).value), Tags(c.topic, region))
  }

  /** The notices of one apply line, in the order of its changes; the first change whose
      table raises (an invalid action or a null entry list) ends the run with the notices
      already sent. */
  method NotifyLine(dryRun: bool, newTopics: Option<seq<Change>>, updatedTopics: Option<seq<Change>>,
                    region: string) returns (sent: seq<Notice>, err: Option<string>)
    ensures SelectChanges(newTopics, updatedTopics).Failure? ==> sent == [] && err.Some?
    ensures var cs := SelectChanges(newTopics, updatedTopics);
            cs.Success? ==>
              && |sent| <= |cs.value|
              && (err.Some? <==> |sent| < |cs.value|)
              && (err.Some? ==> MarkdownTable(cs.value[|sent|]).Failure?
                                && err.value == MarkdownTable(cs.value[|sent|]).error)
              && (forall i :: 0 <= i < |sent| ==>
                    MarkdownTable(cs.value[i]).Success? && sent[i] == ChangeNotice(cs.value[i], dryRun, region))
  {
    var selected := SelectChanges(newTopics, updatedTopics);
    if selected.Failure? {
      return [], Some(selected.error);
    }
    var changes := selected.value;
    sent := [];
    var i := 0;
    while i < |changes|
      invariant i <= |changes| && |sent| == i
      invariant forall j :: 0 <= j < i ==>
                  MarkdownTable(changes[j]).Success? && sent[j] == ChangeNotice(changes[j], dryRun, region)
    {
      var text := MarkdownTable(changes[i]);
      if text.Failure? {
        return sent, Some(text.error);
      }
      var next := sent + [Notice(Notify.Title(dryRun, changes[i].topic, region), CapText(text.value),
                                 Tags(changes[i].topic, region))];
      forall j | 0 <= j < i + 1
        ensures MarkdownTable(changes[j]).Success? && next[j] == ChangeNotice(changes[j], dryRun, region)
      {
        if j < i {
          assert next[j] == sent[j];
        }
      }
      sent := next;
      i := i + 1;
    }
    err := None;
  }
}
