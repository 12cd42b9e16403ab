/** The change sets of the Python notifier: `NewTopic.build`, `UpdatedTopic.build` and
    their `render_table`, over already-decoded apply events. */
module TopicChange {
  import opened Wrappers
  import opened Decimal
  import opened PyStr
  import opened Table

  datatype ConfigEntry = ConfigEntry(name: string, value: string)

  datatype ConfigUpdate = ConfigUpdate(name: string, current: string, updated: string)

  /** The `numPartitions` object of an update event; either side may be null. */
  datatype IntChange = IntChange(current: Option<int>, updated: Option<int>)

  /** A partition's replica change; Go marshals a nil replica slice as null. */
  datatype ReplicaChange = ReplicaChange(partition: int, currentReplicas: Option<seq<int>>,
                                         updatedReplicas: Option<seq<int>>)

  /** The action-specific keys of an event. A null JSON value is `None`; the create
      event's `configEntries` is iterated without a check, so it is never null. */
  datatype Fields =
    | CreateFields(numPartitions: Option<int>, replicationFactor: Option<int>,
                   configEntries: seq<ConfigEntry>)
    | UpdateFields(partitionChange: Option<IntChange>,
                   newConfigEntries: Option<seq<ConfigEntry>>,
                   updatedConfigEntries: Option<seq<ConfigUpdate>>,
                   missingKeys: Option<seq<string>>,
                   replicaAssignments: Option<seq<ReplicaChange>>)

  /** One decoded line of the apply output. */
  datatype Event = Event(action: string, topic: string, dryRun: bool, errorMessage: Option<string>,
                         fields: Fields)

  /** The decoded line carries the keys its action reads. */
  predicate WellTyped(e: Event)
  {
    e.action == "create" <==> e.fields.CreateFields?
  }

  /** Python truthiness of a nullable int: present and non-zero. */
  predicate IntTruthy(o: Option<int>)
  {
    o.Some? && o.value != 0
  }

  /** The update event's partition row is kept when the object is present and both of
      its sides are truthy. */
  predicate PartitionTruthy(o: Option<IntChange>)
  {
    o.Some? && IntTruthy(o.value.current) && IntTruthy(o.value.updated)
  }

  /** The entries of a nullable list (`xs or []`). */
  function Items<T>(o: Option<seq<T>>): seq<T>
  {
    if o.Some? then o.value else []
  }

  function Count(b: bool): nat
  {
    if b then 1 else 0
  }

  const ActionLabel := "Action (create/update)"
  const CreateMarker: Row := [Str(ActionLabel), Str("create")]
  const UpdateMarker: Row := [Str(ActionLabel), Str("update"), Str("")]

  function NewEntryRows(entries: seq<ConfigEntry>): seq<Row>
  {
    seq(|entries|, k requires 0 <= k < |entries| => [Str(entries[k].name), Str(entries[k].value)])
  }

  /** `NewTopic.build`: the action row, the partition and replication rows when their
      values are truthy, one row per config entry; an action row alone is dropped. */
  function NewChangeSet(numPartitions: Option<int>, replicationFactor: Option<int>,
                        entries: seq<ConfigEntry>): (cs: seq<Row>)
    ensures forall j :: 0 <= j < |cs| ==> |cs[j]| == 2
    ensures cs == [] <==> !IntTruthy(numPartitions) && !IntTruthy(replicationFactor) && entries == []
    ensures cs != [] ==>
              && |cs| == 1 + Count(IntTruthy(numPartitions)) + Count(IntTruthy(replicationFactor)) + |entries|
              && cs[0] == CreateMarker
    ensures IntTruthy(numPartitions) ==> cs[1] == [Str("Partition Count"), Int(numPartitions.value)]
    ensures IntTruthy(replicationFactor) ==>
              cs[1 + Count(IntTruthy(numPartitions))] == [Str("Replication Factor"), Int(replicationFactor.value)]
    ensures forall k :: 0 <= k < |entries| ==>
              cs[1 + Count(IntTruthy(numPartitions)) + Count(IntTruthy(replicationFactor)) + k]
                == [Str(entries[k].name), Str(entries[k].value)]
  {
    var rows := [CreateMarker]
      + (if IntTruthy(numPartitions) then [[Str("Partition Count"), Int(numPartitions.value)]] else [])
      + (if IntTruthy(replicationFactor) then [[Str("Replication Factor"), Int(replicationFactor.value)]] else [])
      + NewEntryRows(entries);
    if |rows| == 1 then [] else rows
  }

  function AddedRows(entries: seq<ConfigEntry>): seq<Row>
  {
    seq(|entries|, k requires 0 <= k < |entries| => [Str(entries[k].name), Str(""), Str(entries[k].value)])
  }

  function UpdatedRows(entries: seq<ConfigUpdate>): seq<Row>
  {
    seq(|entries|, k requires 0 <= k < |entries| =>
      [Str(entries[k].name), Str(entries[k].current), Str(entries[k].updated)])
  }

  function RemovedRows(keys: seq<string>): seq<Row>
  {
    seq(|keys|, k requires 0 <= k < |keys| => [Str(keys[k]), Str(""), Str("REMOVED")])
  }

  function AssignmentLabel(partition: int): string
  {
    "Partition " + IntToString(partition) + " assignments"
  }

  function AssignmentRows(changes: seq<ReplicaChange>): seq<Row>
  {
    seq(|changes|, k requires 0 <= k < |changes| =>
      [Str(AssignmentLabel(changes[k].partition)),
       Str(NullableIntListText(changes[k].currentReplicas)),
       Str(NullableIntListText(changes[k].updatedReplicas))])
  }

  /** The partition-count row of an update, present when both sides are truthy. */
  function PartitionRows(partitionChange: Option<IntChange>): (rows: seq<Row>)
    ensures |rows| == Count(PartitionTruthy(partitionChange))
  {
    if PartitionTruthy(partitionChange) then
      [[Str("Partition Count"), Int(partitionChange.value.current.value), Int(partitionChange.value.updated.value)]]
    else []
  }

  /** `UpdatedTopic.build`: the action row, then in this order the partition row, one row
      per new config, per updated config, per missing key and per replica assignment
      change; an action row alone is dropped. */
  function UpdatedChangeSet(partitionChange: Option<IntChange>, added: Option<seq<ConfigEntry>>,
                            updated: Option<seq<ConfigUpdate>>, missing: Option<seq<string>>,
                            replicas: Option<seq<ReplicaChange>>): (cs: seq<Row>)
    ensures forall j :: 0 <= j < |cs| ==> |cs[j]| == 3
    ensures cs == [] <==>
              !PartitionTruthy(partitionChange) && Items(added) == [] && Items(updated) == []
              && Items(missing) == [] && Items(replicas) == []
    ensures cs != [] ==>
              && |cs| == 1 + Count(PartitionTruthy(partitionChange)) + |Items(added)| + |Items(updated)|
                         + |Items(missing)| + |Items(replicas)|
              && cs[0] == UpdateMarker
  {
    var g := AssignmentRows(Items(replicas));
    var r := RemovedRows(Items(missing)) + g;
    var u := UpdatedRows(Items(updated)) + r;
    var a := AddedRows(Items(added)) + u;
    var p := PartitionRows(partitionChange) + a;
    ArityConcat(RemovedRows(Items(missing)), g, 3);
    ArityConcat(UpdatedRows(Items(updated)), r, 3);
    ArityConcat(AddedRows(Items(added)), u, 3);
    ArityConcat(PartitionRows(partitionChange), a, 3);
    ArityConcat([UpdateMarker], p, 3);
    var rows := [UpdateMarker] + p;
    if |rows| == 1 then [] else rows
  }

  /** Every row has `n` cells. */
  predicate Arity(rows: seq<Row>, n: nat)
  {
    forall j :: 0 <= j < |rows| ==> |rows[j]| == n
  }

  lemma ArityConcat(a: seq<Row>, b: seq<Row>, n: nat)
    requires Arity(a, n) && Arity(b, n)
    ensures Arity(a + b, n)
  {
  }

  // The sections of an update change set appear in the fixed order partition count, new
  // configs, updated configs, missing keys, replica assignments, each in input order:
  // each lemma below places one section after the ones in front of it.

  lemma PartitionRowPlaced(partitionChange: Option<IntChange>, added: Option<seq<ConfigEntry>>,
      updated: Option<seq<ConfigUpdate>>, missing: Option<seq<string>>, replicas: Option<seq<ReplicaChange>>)
    ensures var cs := UpdatedChangeSet(partitionChange, added, updated, missing, replicas);
            var p := Count(PartitionTruthy(partitionChange));
            var a, u, r := |Items(added)|, |Items(updated)|, |Items(missing)|;
            PartitionTruthy(partitionChange) ==>
              cs[1] == [Str("Partition Count"), Int(partitionChange.value.current.value),
                        Int(partitionChange.value.updated.value)]
  {
    var cs := UpdatedChangeSet(partitionChange, added, updated, missing, replicas);
    if cs != [] {
      UpdatedSections(partitionChange, added, updated, missing, replicas);
      SectionsInOrder(UpdateMarker, PartitionRows(partitionChange), AddedRows(Items(added)),
                      UpdatedRows(Items(updated)), RemovedRows(Items(missing)), AssignmentRows(Items(replicas)));
    }
  }

  lemma AddedRowsPlaced(partitionChange: Option<IntChange>, added: Option<seq<ConfigEntry>>,
      updated: Option<seq<ConfigUpdate>>, missing: Option<seq<string>>, replicas: Option<seq<ReplicaChange>>)
    ensures var cs := UpdatedChangeSet(partitionChange, added, updated, missing, replicas);
            var p := Count(PartitionTruthy(partitionChange));
            var a, u, r := |Items(added)|, |Items(updated)|, |Items(missing)|;
            forall k :: 0 <= k < a ==> cs[1 + p + k] == AddedRows(Items(added))[k]
  {
    var cs := UpdatedChangeSet(partitionChange, added, updated, missing, replicas);
    if cs != [] {
      UpdatedSections(partitionChange, added, updated, missing, replicas);
      SectionsInOrder(UpdateMarker, PartitionRows(partitionChange), AddedRows(Items(added)),
                      UpdatedRows(Items(updated)), RemovedRows(Items(missing)), AssignmentRows(Items(replicas)));
    }
  }

  lemma UpdatedRowsPlaced(partitionChange: Option<IntChange>, added: Option<seq<ConfigEntry>>,
      updated: Option<seq<ConfigUpdate>>, missing: Option<seq<string>>, replicas: Option<seq<ReplicaChange>>)
    ensures var cs := UpdatedChangeSet(partitionChange, added, updated, missing, replicas);
            var p := Count(PartitionTruthy(partitionChange));
            var a, u, r := |Items(added)|, |Items(updated)|, |Items(missing)|;
            forall k :: 0 <= k < u ==> cs[1 + p + a + k] == UpdatedRows(Items(updated))[k]
  {
    var cs := UpdatedChangeSet(partitionChange, added, updated, missing, replicas);
    if cs != [] {
      UpdatedSections(partitionChange, added, updated, missing, replicas);
      SectionsInOrder(UpdateMarker, PartitionRows(partitionChange), AddedRows(Items(added)),
                      UpdatedRows(Items(updated)), RemovedRows(Items(missing)), AssignmentRows(Items(replicas)));
    }
  }

  lemma RemovedRowsPlaced(partitionChange: Option<IntChange>, added: Option<seq<ConfigEntry>>,
      updated: Option<seq<ConfigUpdate>>, missing: Option<seq<string>>, replicas: Option<seq<ReplicaChange>>)
    ensures var cs := UpdatedChangeSet(partitionChange, added, updated, missing, replicas);
            var p := Count(PartitionTruthy(partitionChange));
            var a, u, r := |Items(added)|, |Items(updated)|, |Items(missing)|;
            forall k :: 0 <= k < r ==> cs[1 + p + a + u + k] == RemovedRows(Items(missing))[k]
  {
    var cs := UpdatedChangeSet(partitionChange, added, updated, missing, replicas);
    if cs != [] {
      UpdatedSections(partitionChange, added, updated, missing, replicas);
      SectionsInOrder(UpdateMarker, PartitionRows(partitionChange), AddedRows(Items(added)),
                      UpdatedRows(Items(updated)), RemovedRows(Items(missing)), AssignmentRows(Items(replicas)));
    }
  }

  lemma AssignmentRowsPlaced(partitionChange: Option<IntChange>, added: Option<seq<ConfigEntry>>,
      updated: Option<seq<ConfigUpdate>>, missing: Option<seq<string>>, replicas: Option<seq<ReplicaChange>>)
    ensures var cs := UpdatedChangeSet(partitionChange, added, updated, missing, replicas);
            var p := Count(PartitionTruthy(partitionChange));
            var a, u, r := |Items(added)|, |Items(updated)|, |Items(missing)|;
            forall k :: 0 <= k < |Items(replicas)| ==>
              cs[1 + p + a + u + r + k] == AssignmentRows(Items(replicas))[k]
  {
    var cs := UpdatedChangeSet(partitionChange, added, updated, missing, replicas);
    if cs != [] {
      UpdatedSections(partitionChange, added, updated, missing, replicas);
      SectionsInOrder(UpdateMarker, PartitionRows(partitionChange), AddedRows(Items(added)),
                      UpdatedRows(Items(updated)), RemovedRows(Items(missing)), AssignmentRows(Items(replicas)));
    }
  }

  lemma UpdatedSections(partitionChange: Option<IntChange>, added: Option<seq<ConfigEntry>>,
                         updated: Option<seq<ConfigUpdate>>, missing: Option<seq<string>>,
                         replicas: Option<seq<ReplicaChange>>)
    ensures var cs := UpdatedChangeSet(partitionChange, added, updated, missing, replicas);
            cs != [] ==>
              cs == [UpdateMarker] + (PartitionRows(partitionChange) + (AddedRows(Items(added))
                      + (UpdatedRows(Items(updated)) + (RemovedRows(Items(missing)) + AssignmentRows(Items(replicas))))))
  {
  }

  /** Indexing into the right-nested concatenation that builds an update change set. */
  lemma SectionsInOrder<T>(m: T, p: seq<T>, a: seq<T>, u: seq<T>, r: seq<T>, g: seq<T>)
    ensures var x := [m] + (p + (a + (u + (r + g))));
            && (forall k :: 0 <= k < |p| ==> x[1 + k] == p[k])
            && (forall k :: 0 <= k < |a| ==> x[1 + |p| + k] == a[k])
            && (forall k :: 0 <= k < |u| ==> x[1 + |p| + |a| + k] == u[k])
            && (forall k :: 0 <= k < |r| ==> x[1 + |p| + |a| + |u| + k] == r[k])
            && (forall k :: 0 <= k < |g| ==> x[1 + |p| + |a| + |u| + |r| + k] == g[k])
  {
  }

  // ---------------------------------------------------------------------------
  // Built topics and their tables

  datatype Kind = Created | Updated

  /** `NewTopic` or `UpdatedTopic`: the change set of one event and what the notification
      repeats from it. */
  datatype Topic = Topic(kind: Kind, name: string, dryRun: bool, errorMessage: Option<string>,
                         changeSet: seq<Row>)

  function Headers(k: Kind): seq<string>
  {
    match k
    case Created => ["Parameter", "Value"]
    case Updated => ["Parameter", "Old Value", "New Value"]
  }

  /** The rows handed to make_table: a created topic's table starts with its name. */
  function Content(t: Topic): seq<Row>
  {
    match t.kind
    case Created => [[Str("Topic Name"), Str(t.name)]] + t.changeSet
    case Updated => t.changeSet
  }

  function Marker(k: Kind): Row
  {
    match k
    case Created => CreateMarker
    case Updated => UpdateMarker
  }

  /** What every built topic satisfies: rows as wide as the headers, and a change set
      that is either empty or the action row followed by at least one change. */
  predicate ValidTopic(t: Topic)
  {
    && (forall j :: 0 <= j < |t.changeSet| ==> |t.changeSet[j]| == |Headers(t.kind)|)
    && (t.changeSet != [] ==> |t.changeSet| >= 2 && t.changeSet[0] == Marker(t.kind))
  }

  /** The dispatch of the main loop: `NewTopic.build` for "create", `UpdatedTopic.build`
      for any other action. */
  function Build(e: Event): (t: Topic)
    requires WellTyped(e)
    ensures ValidTopic(t)
    ensures t.kind == Created <==> e.action == "create"
    ensures t.name == e.topic && t.dryRun == e.dryRun && t.errorMessage == e.errorMessage
    ensures e.fields.CreateFields? ==>
              t.changeSet == NewChangeSet(e.fields.numPartitions, e.fields.replicationFactor, e.fields.configEntries)
    ensures e.fields.UpdateFields? ==>
              t.changeSet == UpdatedChangeSet(e.fields.partitionChange, e.fields.newConfigEntries,
                                              e.fields.updatedConfigEntries, e.fields.missingKeys,
                                              e.fields.replicaAssignments)
  {
    match e.fields
    case CreateFields(np, rf, entries) =>
      Topic(Created, e.topic, e.dryRun, e.errorMessage, NewChangeSet(np, rf, entries))
    case UpdateFields(pc, added, updated, missing, replicas) =>
      Topic(Updated, e.topic, e.dryRun, e.errorMessage, UpdatedChangeSet(pc, added, updated, missing, replicas))
  }

  /** An event reports changes exactly when one of its change keys is truthy. */
  lemma BuildReportsChanges(e: Event)
    requires WellTyped(e)
    ensures Build(e).changeSet != [] <==>
              match e.fields
              case CreateFields(np, rf, entries) => IntTruthy(np) || IntTruthy(rf) || entries != []
              case UpdateFields(pc, added, updated, missing, replicas) =>
                PartitionTruthy(pc) || Items(added) != [] || Items(updated) != [] || Items(missing) != []
                || Items(replicas) != []
  {
  }

  lemma ContentShaped(t: Topic)
    requires ValidTopic(t)
    ensures WellShaped(Headers(t.kind), Content(t))
  {
  }

  /** `render_table` of either topic kind: never empty for Datadog, whose output is
      always inside "%%%" lines, and empty for Slack exactly when there is nothing to say. */
  function RenderTable(t: Topic, d: Destination): (r: string)
    requires ValidTopic(t)
    ensures d == Datadog ==> Text.HasPrefix(r, "%%%\n") && Text.HasSuffix(r, "%%%")
    ensures d == Slack && t.errorMessage == None && t.changeSet == [] ==> r == ""
  {
    ContentShaped(t);
    MakeTable(Headers(t.kind), Content(t), t.errorMessage, d)
  }

  /** The table lines are rendered exactly when the change set is not empty. */
  lemma TableShownIffChanges(t: Topic)
    requires ValidTopic(t)
    ensures WellShaped(Headers(t.kind), Content(t))
    ensures TableBody(Headers(t.kind), Content(t)) != "" <==> t.changeSet != []
  {
    TableBodyNonEmpty(Headers(t.kind), Content(t));
  }

  /** Without an error a topic with changes renders as its table inside the destination's
      opener and closer; one without changes leaves only Datadog's empty wrapper. */
  lemma RenderWithoutError(t: Topic, d: Destination)
    requires ValidTopic(t) && t.errorMessage == None
    ensures WellShaped(Headers(t.kind), Content(t))
    ensures t.changeSet != [] ==>
              RenderTable(t, d) == Opener(d) + TableBody(Headers(t.kind), Content(t)) + Closer(d)
    ensures t.changeSet == [] ==> RenderTable(t, d) == if d == Datadog then "%%%\n%%%" else ""
  {
    NoErrorRendering(Headers(t.kind), Content(t), d);
  }

  /** With an error the message is shown in front of what would be rendered without it,
      and the footer says changes were still made exactly when the change set is not
      empty. */
  lemma RenderWithError(t: Topic, msg: string, d: Destination)
    requires ValidTopic(t) && t.errorMessage == Some(msg)
    ensures var footer := if t.changeSet != [] then ChangesStillMade else NoChangesMade;
            var banners := Banner(ErrorHeading, d) + msg + "\n\n" + Banner(footer, d);
            var plain := RenderTable(t.(errorMessage := None), d);
            && (d == Slack ==> RenderTable(t, d) == banners + plain)
            && (d == Datadog ==> |plain| >= 4 && RenderTable(t, d) == "%%%\n" + banners + plain[4..])
  {
    ErrorOverlay(Headers(t.kind), Content(t), msg, d);
  }

  // ---------------------------------------------------------------------------
  // The events of the notifier's own tests

  lemma CreateExample()
    ensures NewChangeSet(Some(16), Some(3), [ConfigEntry("cleanup.policy", "delete"),
                                             ConfigEntry("max.message.bytes", "5542880")])
              == [[Str("Action (create/update)"), Str("create")],
                  [Str("Partition Count"), Int(16)],
                  [Str("Replication Factor"), Int(3)],
                  [Str("cleanup.policy"), Str("delete")],
                  [Str("max.message.bytes"), Str("5542880")]]
  {
  }

  lemma AssignmentExample(partition: int, current: seq<int>, updated: seq<int>, heading: string,
                          currentText: string, updatedText: string)
    requires || (partition == 0 && current == [5, 4] && updated == [3, 4] && heading == "Partition 0 assignments"
                 && currentText == "[5, 4]" && updatedText == "[3, 4]")
             || (partition == 1 && current == [2, 6] && updated == [5, 6] && heading == "Partition 1 assignments"
                 && currentText == "[2, 6]" && updatedText == "[5, 6]")
    ensures AssignmentRows([ReplicaChange(partition, Some(current), Some(updated))])
              == [[Str(heading), Str(currentText), Str(updatedText)]]
  {
    IntListPair(current[0], current[1]);
    IntListPair(updated[0], updated[1]);
    assert current == [current[0], current[1]] && updated == [updated[0], updated[1]];
    assert IntToString(partition) == [DigitChar(partition)];
    assert IntListText(current) == currentText;
    assert IntListText(updated) == updatedText;
    assert AssignmentLabel(partition) == heading;
  }

  /** A null replica list, as for partition 3 of the Go test's reassignment, is shown as
      `str(None)`. */
  lemma AssignmentNullExample()
    ensures AssignmentRows([ReplicaChange(3, Some([1, 2]), None)])
              == [[Str("Partition 3 assignments"), Str("[1, 2]"), Str("None")]]
  {
    IntListPair(1, 2);
    assert IntToString(3) == [DigitChar(3)];
    assert AssignmentLabel(3) == "Partition 3 assignments";
    assert NullableIntListText(Some([1, 2])) == "[1, 2]";
    assert NullableIntListText(None) == "None";
  }

  lemma IntListPair(x: int, y: int)
    requires 0 <= x < 10 && 0 <= y < 10
    ensures IntListText([x, y]) == "[" + [DigitChar(x)] + ", " + [DigitChar(y)] + "]"
  {
    var parts := seq(2, k requires 0 <= k < 2 => IntToString([x, y][k]));
    assert parts == [[DigitChar(x)], [DigitChar(y)]];
    Text.JoinPair(", ", [DigitChar(x)], [DigitChar(y)]);
  }

  lemma UpdateExample()
    ensures UpdatedChangeSet(None, Some([ConfigEntry("cleanup.policy", "delete")]),
                             Some([ConfigUpdate("message.timestamp.type", "CreateTime", "LogAppendTime")]),
                             Some(["max.message.bytes"]),
                             Some([ReplicaChange(0, Some([5, 4]), Some([3, 4])), ReplicaChange(1, Some([2, 6]), Some([5, 6]))]))
              == [[Str("Action (create/update)"), Str("update"), Str("")],
                  [Str("cleanup.policy"), Str(""), Str("delete")],
                  [Str("message.timestamp.type"), Str("CreateTime"), Str("LogAppendTime")],
                  [Str("max.message.bytes"), Str(""), Str("REMOVED")],
                  [Str("Partition 0 assignments"), Str("[5, 4]"), Str("[3, 4]")],
                  [Str("Partition 1 assignments"), Str("[2, 6]"), Str("[5, 6]")]]
  {
    var g := [ReplicaChange(0, Some([5, 4]), Some([3, 4])), ReplicaChange(1, Some([2, 6]), Some([5, 6]))];
    AssignmentExample(0, [5, 4], [3, 4], "Partition 0 assignments", "[5, 4]", "[3, 4]");
    AssignmentExample(1, [2, 6], [5, 6], "Partition 1 assignments", "[2, 6]", "[5, 6]");
    assert g[..1] == [ReplicaChange(0, Some([5, 4]), Some([3, 4]))] && g[1..] == [ReplicaChange(1, Some([2, 6]), Some([5, 6]))];
    assert AssignmentRows(g) == AssignmentRows(g[..1]) + AssignmentRows(g[1..]);
    assert AssignmentRows(g) == [[Str("Partition 0 assignments"), Str("[5, 4]"), Str("[3, 4]")],
                                 [Str("Partition 1 assignments"), Str("[2, 6]"), Str("[5, 6]")]];
    assert AddedRows([ConfigEntry("cleanup.policy", "delete")]) == [[Str("cleanup.policy"), Str(""), Str("delete")]];
    assert UpdatedRows([ConfigUpdate("message.timestamp.type", "CreateTime", "LogAppendTime")])
      == [[Str("message.timestamp.type"), Str("CreateTime"), Str("LogAppendTime")]];
    assert RemovedRows(["max.message.bytes"]) == [[Str("max.message.bytes"), Str(""), Str("REMOVED")]];
  }

  /** A create event without changes but with an error renders, for Datadog, as the
      error and "No changes were made." inside the "%%%" wrapper. */
  lemma EmptyErrorExample()
    ensures var e := Event("create", "my_topic", false, Some("this is an error"), CreateFields(None, None, []));
            RenderTable(Build(e), Datadog)
              == "%%%\n"
                 + (("# " + "ERROR - the following error occurred while processing this topic:" + "\n")
                    + "this is an error" + "\n\n" + ("# " + "No changes were made." + "\n"))
                 + "%%%"
  {
    var t := Build(Event("create", "my_topic", false, Some("this is an error"), CreateFields(None, None, [])));
    assert t.changeSet == [];
    TableShownIffChanges(t);
    assert RenderTable(t, Datadog) == Frame("", false, Some("this is an error"), Datadog);
    var banners := Banner(ErrorHeading, Datadog) + "this is an error" + "\n\n" + Banner(NoChangesMade, Datadog);
    assert banners + Fence("", Datadog) == banners;
  }
}
