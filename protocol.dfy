/**
 * The two halves of the deferred cross-reference protocol put together: a
 * topic recorded by a directive run is what a later reference to the same
 * class name resolves to.
 */
module Protocol {
  import opened Wrappers
  import opened Strings
  import opened Docutils
  import opened Env
  import opened ExtUtils
  import opened CrossRefs
  import opened Topics

  /** A class name as an author writes it in a role: trimmed, without `~` in front and without `>`. */
  predicate PlainName(n: string)
  {
    '>' !in n && (n == [] || (n[0] != '~' && !IsSpace(n[0]) && !IsSpace(n[|n| - 1])))
  }

  /**
   * After a successful task or configurable topic run for class `n`, a task
   * reference `n` links to the topic's document at its target and shows `n`;
   * the reference `~n` links to the same place and shows the last dotted
   * component of `n`. Neither logs a warning.
   */
  lemma TaskTopicRoundTrip(registry: Option<map<string, TopicRecord>>, docName: string, d: Directive, host: Host,
                           fields: Option<map<string, FieldRecord>>, fromDocName: string)
    requires d.kind != ConfigTopic && |d.arguments| > 0
    requires RunOutcome(registry, docName, d, host, false).result.Ok?
    requires PlainName(d.arguments[0])
    ensures var n := d.arguments[0];
      var ctx := ResolveContext(RunOutcome(registry, docName, d, host, false).registry, fields, fromDocName, host);
      var uri := host.relativeUri(fromDocName, docName) + "#" + FormatTaskId(host.makeId, n);
      && Resolve(TaskXref, ctx, n) == Resolution(Reference(docName, uri, [Literal(n)]), None)
      && Resolve(TaskXref, ctx, "~" + n) == Resolution(Reference(docName, uri, [Literal(SplitLast(n, '.').1)]), None)
  {
    var n := d.arguments[0];
    var ctx := ResolveContext(RunOutcome(registry, docName, d, host, false).registry, fields, fromDocName, host);
    RunRecordsAt(registry, docName, d, host);
    TargetIdIsReferenceId(host.makeId, n);
    assert Parse(n) == RoleContent(false, None, n) && Parse("~" + n) == RoleContent(true, None, n) by {
      ParsePlain(n);
    }
    LinksToRecord(TaskXref, ctx, n, docName);
    LinksToRecord(TaskXref, ctx, "~" + n, docName);
  }

  /**
   * With the config override under its intended name, a config topic run for
   * class `n` is what a config reference `n` resolves to.
   */
  lemma ConfigTopicRoundTrip(registry: Option<map<string, TopicRecord>>, docName: string, d: Directive, host: Host,
                             fields: Option<map<string, FieldRecord>>, fromDocName: string)
    requires d.kind == ConfigTopic && |d.arguments| > 0
    requires RunOutcome(registry, docName, d, host, false).result.Ok?
    requires PlainName(d.arguments[0])
    ensures var n := d.arguments[0];
      var ctx := ResolveContext(RunOutcome(registry, docName, d, host, false).registry, fields, fromDocName, host);
      var uri := host.relativeUri(fromDocName, docName) + "#" + FormatConfigId(host.makeId, n);
      Resolve(ConfigXref, ctx, n) == Resolution(Reference(docName, uri, [Literal(n)]), None)
  {
    var n := d.arguments[0];
    var ctx := ResolveContext(RunOutcome(registry, docName, d, host, false).registry, fields, fromDocName, host);
    RunRecordsAt(registry, docName, d, host);
    TargetIdIsReferenceId(host.makeId, n);
    assert Parse(n) == RoleContent(false, None, n) by {
      ParsePlain(n);
    }
    LinksToRecord(ConfigXref, ctx, n, docName);
  }

  /**
   * A task or config reference whose id holds a record of `docName` targeting
   * that id links into `docName` at the id, showing the display text.
   */
  lemma LinksToRecord(kind: XrefKind, ctx: ResolveContext, raw: string, docName: string)
    requires kind != ConfigFieldXref
    requires var id := XrefId(kind, ctx.host.makeId, Parse(raw).ref);
      id in OrEmpty(ctx.topics) && OrEmpty(ctx.topics)[id].docName == docName && TargetRefId(OrEmpty(ctx.topics)[id]) == id
    ensures var id := XrefId(kind, ctx.host.makeId, Parse(raw).ref);
      Resolve(kind, ctx, raw)
        == Resolution(Reference(docName, ctx.host.relativeUri(ctx.fromDocName, docName) + "#" + id, [Literal(DisplayText(Parse(raw)))]), None)
  {
    ResolveTopicHit(kind, ctx, raw);
  }

  /**
   * As written, a config topic run for class `n` leaves nothing for a config
   * reference `n` to find unless the id was registered already: the
   * reference falls back to a literal and a warning.
   */
  lemma ConfigTopicAsWrittenUnresolved(registry: Option<map<string, TopicRecord>>, docName: string, d: Directive,
                                       host: Host, fields: Option<map<string, FieldRecord>>, fromDocName: string)
    requires d.kind == ConfigTopic && |d.arguments| > 0
    requires PlainName(d.arguments[0])
    requires FormatConfigId(host.makeId, d.arguments[0]) !in OrEmpty(registry)
    ensures var n := d.arguments[0];
      var ctx := ResolveContext(RunOutcome(registry, docName, d, host, true).registry, fields, fromDocName, host);
      Resolve(ConfigXref, ctx, n) == Resolution(Literal(n), Some(MissMessage(ConfigXref) + n))
  {
    var n := d.arguments[0];
    var ctx := ResolveContext(RunOutcome(registry, docName, d, host, true).registry, fields, fromDocName, host);
    ConfigTopicAsWrittenNeverRecords(registry, docName, d, host);
    assert Parse(n) == RoleContent(false, None, n) by {
      ParsePlain(n);
    }
    ResolveMiss(ConfigXref, ctx, n);
  }
}
