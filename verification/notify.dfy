/** The main loop of the Python notifier: one notification per event, with a title, a
    Datadog body and a Slack body, each body cut to its destination's length limit. */
module Notify {
  import opened Wrappers
  import opened Text
  import opened PyStr
  import opened Table
  import opened TopicChange

  /** Datadog events take 4000 characters and Slack messages 3000; the notifier stays
      100 below to leave room for the title. */
  const DatadogMaxLength: nat := 3900
  const SlackMaxLength: nat := 2900

  function MaxLength(d: Destination): nat
  {
    match d
    case Datadog => DatadogMaxLength
    case Slack => SlackMaxLength
  }

  const Ellipsis := "\n..."

  /** A body longer than the limit keeps its first `limit` characters and gets a line
      "..." appended. */
  function Cap(body: string, limit: nat): (r: string)
    ensures |r| <= |body| || |r| == limit + |Ellipsis|
    ensures |r| <= limit + |Ellipsis|
    ensures HasPrefix(r, body[..if |body| <= limit then |body| else limit])
  {
    if |body| > limit then body[..limit] + Ellipsis else body
  }

  /** A body within the limit is sent unchanged; a longer one is cut to exactly the limit
      plus the ellipsis, so it changes unless it already ended that way. */
  lemma CapKeepsShortBodies(body: string, limit: nat)
    ensures |body| <= limit ==> Cap(body, limit) == body
    ensures |body| > limit ==> |Cap(body, limit)| == limit + |Ellipsis| && HasSuffix(Cap(body, limit), Ellipsis)
    ensures Cap(body, limit) == body <==> |body| <= limit || (|body| == limit + |Ellipsis| && HasSuffix(body, Ellipsis))
  {
    if |body| > limit {
      var r := Cap(body, limit);
      assert r[limit..] == Ellipsis;
      if |body| == limit + |Ellipsis| && HasSuffix(body, Ellipsis) {
        assert body == body[..limit] + body[limit..];
      }
    }
  }

  /** Cutting a cut body again changes nothing. */
  lemma CapIdempotent(body: string, limit: nat)
    ensures Cap(Cap(body, limit), limit) == Cap(body, limit)
  {
    if |body| > limit {
      var r := Cap(body, limit);
      assert r[..limit] == body[..limit];
    }
  }

  const DryRunPrefix := "Dry run: "
  const TitleLead := "Topicctl ran apply on topic "
  const RegionLead := " in region "

  /** The notification title; `region` is the SENTRY_REGION environment variable, or
      "unknown" when it is not set. */
  function Title(dryRun: bool, name: string, region: string): (r: string)
    ensures HasPrefix(r, DryRunPrefix) <==> dryRun
    ensures HasSuffix(r, RegionLead + region)
  {
    var lead := if dryRun then DryRunPrefix else "";
    assert (lead + TitleLead + name + RegionLead + region)[|lead|] == 'T';
    lead + TitleLead + name + RegionLead + region
  }

  /** The topic name and the dry-run flag can be read back from a title. */
  lemma TitleNames(dryRun: bool, name: string, region: string)
    ensures var lead := if dryRun then |DryRunPrefix| else 0;
            var r := Title(dryRun, name, region);
            && |r| == lead + |TitleLead| + |name| + |RegionLead| + |region|
            && r[lead + |TitleLead|..lead + |TitleLead| + |name|] == name
  {
  }

  /** The four fixed tags of every Datadog event, and the topic's name. */
  function Tags(name: string, region: string): (tags: map<string, string>)
    ensures tags.Keys == {"source", "source_tool", "source_category", "sentry_region", "topicctl_topic"}
    ensures tags["sentry_region"] == region && tags["topicctl_topic"] == name
  {
    map["source" := "topicctl", "source_tool" := "topicctl", "source_category" := "infra-tools",
        "sentry_region" := region, "topicctl_topic" := name]
  }

  /** What one event sends: the same title to both destinations, each its own rendering
      of the table, and the tags to Datadog. */
  datatype Notification = Notification(title: string, datadogBody: string, slackBody: string,
                                       tags: map<string, string>)

  function Notify(e: Event, region: string): (n: Notification)
    requires WellTyped(e)
    ensures |n.datadogBody| <= DatadogMaxLength + |Ellipsis|
    ensures |n.slackBody| <= SlackMaxLength + |Ellipsis|
    ensures HasPrefix(n.title, DryRunPrefix) <==> e.dryRun
    ensures n.title == Title(e.dryRun, e.topic, region)
    ensures "topicctl_topic" in n.tags && n.tags["topicctl_topic"] == e.topic
  {
    var t := Build(e);
    Notification(Title(t.dryRun, t.name, region),
                 Cap(RenderTable(t, Datadog), MaxLength(Datadog)),
                 Cap(RenderTable(t, Slack), MaxLength(Slack)),
                 Tags(t.name, region))
  }

  /** Each body is the event's table for that destination: as it is when it fits, and
      otherwise its first `limit` characters followed by the ellipsis line. */
  lemma NotifyBodies(e: Event, region: string)
    requires WellTyped(e)
    ensures var n := Notify(e, region);
            var t := Build(e);
            var datadog, slack := RenderTable(t, Datadog), RenderTable(t, Slack);
            && (|datadog| <= DatadogMaxLength ==> n.datadogBody == datadog)
            && (|datadog| > DatadogMaxLength ==> n.datadogBody == datadog[..DatadogMaxLength] + Ellipsis)
            && (|slack| <= SlackMaxLength ==> n.slackBody == slack)
            && (|slack| > SlackMaxLength ==> n.slackBody == slack[..SlackMaxLength] + Ellipsis)
            && n.tags == Tags(e.topic, region)
  {
  }

  /** The loop over the input lines: each event is notified in turn. An event without
      the keys its action reads raises in the source, which ends the loop with the
      notifications already sent. */
  method Run(events: seq<Event>, region: string) returns (sent: seq<Notification>, failed: bool)
    ensures |sent| <= |events|
    ensures failed <==> |sent| < |events|
    ensures failed ==> !WellTyped(events[|sent|])
    ensures forall k :: 0 <= k < |sent| ==> WellTyped(events[k]) && sent[k] == Notify(events[k], region)
  {
    sent := [];
    var i := 0;
    while i < |events| && WellTyped(events[i])
      invariant Notified(events, region, sent, i)
    {
      NotifiedExtend(events, region, sent, i);
      sent := sent + [Notify(events[i], region)];
      i := i + 1;
    }
    failed := i < |events|;
  }

  /** `sent` holds the notifications of the first `i` events. */
  predicate Notified(events: seq<Event>, region: string, sent: seq<Notification>, i: nat)
  {
    && i <= |events| && |sent| == i
    && forall k :: 0 <= k < i ==> WellTyped(events[k]) && sent[k] == Notify(events[k], region)
  }

  lemma NotifiedExtend(events: seq<Event>, region: string, sent: seq<Notification>, i: nat)
    requires Notified(events, region, sent, i) && i < |events| && WellTyped(events[i])
    ensures Notified(events, region, sent + [Notify(events[i], region)], i + 1)
  {
    AppendAt(sent, Notify(events[i], region));
  }

  lemma AppendAt<T>(xs: seq<T>, x: T)
    ensures |xs + [x]| == |xs| + 1 && (xs + [x])[|xs|] == x
    ensures forall k :: 0 <= k < |xs| ==> (xs + [x])[k] == xs[k]
  {
  }
}
