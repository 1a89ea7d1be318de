/**
 * The topic directives `lsst-task-topic`, `lsst-configurable-topic` and
 * `lsst-config-topic`: each emits a target node and records the topic in the
 * environment's `lsst_task_topics` registry for the resolvers.
 */
module Topics {
  import opened Wrappers
  import opened Strings
  import opened Docutils
  import opened Env
  import opened TaskUtils
  import opened CrossRefs

  /** The three subclasses of `BaseTopicDirective`. */
  datatype TopicKind = ConfigurableTopic | TaskTopic | ConfigTopic

  function DirectiveName(kind: TopicKind): string
  {
    match kind
    case ConfigurableTopic => "lsst-configurable-topic"
    case TaskTopic => "lsst-task-topic"
    case ConfigTopic => "lsst-config-topic"
  }

  /** One use of a topic directive: its arguments, its content lines and its line number. */
  datatype Directive = Directive(kind: TopicKind, arguments: seq<string>, content: seq<string>, lineno: nat)

  /**
   * The `get_target_id` overrides: configurable and task topics share the
   * task-id namespace, config topics use the config-id namespace.
   */
  function TargetIdOf(kind: TopicKind, makeId: string -> string, className: string): (id: string)
    ensures kind != ConfigTopic ==> id == FormatTaskId(makeId, className)
    ensures kind == ConfigTopic ==> id == FormatConfigId(makeId, className)
  {
    if kind == ConfigTopic then FormatConfigId(makeId, className) else FormatTaskId(makeId, className)
  }

  /** A task topic and a configurable topic for the same class claim the same target id. */
  lemma TaskAndConfigurableShareId(makeId: string -> string, className: string)
    ensures TargetIdOf(TaskTopic, makeId, className) == TargetIdOf(ConfigurableTopic, makeId, className)
  {
  }

  /** The id a topic claims is the id a reference of the matching kind to the same class looks up. */
  lemma TargetIdIsReferenceId(makeId: string -> string, className: string)
    ensures TargetIdOf(TaskTopic, makeId, className) == XrefId(TaskXref, makeId, className)
    ensures TargetIdOf(ConfigurableTopic, makeId, className) == XrefId(TaskXref, makeId, className)
    ensures TargetIdOf(ConfigTopic, makeId, className) == XrefId(ConfigXref, makeId, className)
  {
  }

  /**
   * The `get_type` each directive class ends up calling, as the classes are
   * written: `ConfigTopicDirective` defines `get_object` rather than
   * `get_type`, so the base method runs and raises `NotImplementedError`.
   */
  function TopicTypeAsWritten(kind: TopicKind, className: string, host: Host): (r: Result<TopicType, Error>)
    ensures kind == ConfigTopic ==> r == Err(NotImplementedError)
    ensures kind != ConfigTopic ==> r == TopicTypeOf(kind, className, host)
  {
    if kind == ConfigTopic then Err(NotImplementedError) else TopicTypeOf(kind, className, host)
  }

  /**
   * The topic type with the config override under the name the base class
   * calls: "Configurable"; "PipelineTask" or "Task" once the class is
   * imported, where `get_type` refuses a name without a dot with the error
   * `GetType` gives; and "Config".
   */
  function TopicTypeOf(kind: TopicKind, className: string, host: Host): (r: Result<TopicType, Error>)
    ensures r.Ok? && r.value == Config <==> kind == ConfigTopic
    ensures r.Ok? && r.value == Configurable <==> kind == ConfigurableTopic
    ensures kind == TaskTopic ==>
      && (r.Err? <==> '.' !in className)
      && (r.Err? ==> r.error == NotQualifiedError(className))
      && (r.Ok? ==> (r.value == PipelineTask <==> host.isPipelineTask(className)))
  {
    match kind
    case ConfigurableTopic => Ok(Configurable)
    case TaskTopic =>
      if '.' !in className then Err(NotQualifiedError(className))
      else if host.isPipelineTask(className) then Ok(PipelineTask) else Ok(Task)
    case ConfigTopic => Ok(Config)
  }

  // ---------------------------------------------------------------------
  // The summary
  // ---------------------------------------------------------------------

  const NoDescription := "No description available."

  lemma FallbackIsTrimmed()
    ensures Strip(NoDescription) == NoDescription
  {
    var s := NoDescription;
    assert s[0] == 'N' && s[|s| - 1] == '.';
    StripOfTrimmed(s);
  }

  /**
   * The text `_get_docstring_summary` parses: an empty summary becomes the
   * fixed sentence, then the text is trimmed and ends in one newline. The
   * emptiness test comes before the trim.
   */
  function SummaryText(summary: string): (t: string)
    ensures |t| >= 1 && t[|t| - 1] == '\n'
    ensures summary == "" ==> t == NoDescription + "\n"
    ensures summary != "" ==> t == Strip(summary) + "\n"
  {
    var text := if summary == "" then NoDescription else summary;
    FallbackIsTrimmed();
    Strip(text) + "\n"
  }

  /** A summary of blanks only is not replaced by the fixed sentence: it is trimmed to nothing. */
  lemma BlankSummaryNotReplaced(summary: string)
    requires |summary| > 0 && forall k :: 0 <= k < |summary| ==> IsSpace(summary[k])
    ensures SummaryText(summary) == "\n"
  {
    assert LStrip(summary) == "";
  }

  /**
   * `_get_docstring_summary`: the docstring's summary sentence parsed as
   * text; the class is imported first, so a name without a dot fails with
   * the error `GetType` gives.
   */
  function DocstringSummaryNodes(className: string, host: Host): (r: Result<seq<Node>, Error>)
    ensures r.Err? <==> '.' !in className
    ensures r.Err? ==> r.error == NotQualifiedError(className)
    ensures r.Ok? ==>
      var lines := GetDocstring(host.docstringOf(className), className, host.prepareDocstring).lines;
      r.value == host.parseText(SummaryText(DocstringSummary(lines)))
  {
    if '.' !in className then Err(NotQualifiedError(className))
    else
      var lines := GetDocstring(host.docstringOf(className), className, host.prepareDocstring).lines;
      Ok(host.parseText(SummaryText(DocstringSummary(lines))))
  }

  /** `_create_summary_node`: the directive's own content when it has any, else the docstring summary. */
  function SummaryNodes(d: Directive, className: string, host: Host): (r: Result<seq<Node>, Error>)
    ensures |d.content| > 0 ==> r == Ok(host.parseContent(d.content))
    ensures |d.content| == 0 ==> r == DocstringSummaryNodes(className, host)
  {
    if |d.content| > 0 then Ok(host.parseContent(d.content)) else DocstringSummaryNodes(className, host)
  }

  // ---------------------------------------------------------------------
  // BaseTopicDirective.run
  // ---------------------------------------------------------------------

  /** The registry after a run, and what the run returns or raises. */
  datatype RunResult = RunResult(registry: Option<map<string, TopicRecord>>, result: Result<seq<Node>, Error>)

  function MissingArgumentError(kind: TopicKind): Error
  {
    SphinxError(DirectiveName(kind) + " directive requires a class name as an argument")
  }

  /**
   * What `run` does to the registry and returns, with `get_type` as the
   * classes are written (`asWritten`) or with the config override under its
   * intended name: the registry is created empty when absent just
   * before the record is built, and the type is computed while the record is
   * built, so a failing type leaves the registry created but unchanged.
   */
  function RunOutcome(registry: Option<map<string, TopicRecord>>, docName: string, d: Directive, host: Host,
                      asWritten: bool): (r: RunResult)
    ensures |d.arguments| == 0 ==> r == RunResult(registry, Err(MissingArgumentError(d.kind)))
    ensures r.result.Ok? ==> |d.arguments| > 0 && r.result.value == [Target([TargetIdOf(d.kind, host.makeId, d.arguments[0])])]
    ensures r.registry == registry || r.registry.Some?
    ensures asWritten && d.kind == ConfigTopic ==> r.result.Err?
  {
    if |d.arguments| == 0 then RunResult(registry, Err(MissingArgumentError(d.kind)))
    else
      var className := d.arguments[0];
      var summary := SummaryNodes(d, className, host);
      if summary.Err? then RunResult(registry, Err(summary.error))
      else
        var targetId := TargetIdOf(d.kind, host.makeId, className);
        var targetNode := Target([targetId]);
        var topics := OrEmpty(registry);
        var topicType := if asWritten then TopicTypeAsWritten(d.kind, className, host) else TopicTypeOf(d.kind, className, host);
        if topicType.Err? then RunResult(Some(topics), Err(topicType.error))
        else
          var record := TopicRecord(docName, d.lineno, targetNode, summary.value, className, topicType.value);
          RunResult(Some(topics[targetId := record]), Ok([targetNode]))
  }

  /** Without a class name the run raises an error naming the directive and leaves the registry alone. */
  lemma RunWithoutArgument(registry: Option<map<string, TopicRecord>>, docName: string, d: Directive, host: Host)
    requires |d.arguments| == 0
    ensures RunOutcome(registry, docName, d, host, false)
      == RunResult(registry, Err(SphinxError(DirectiveName(d.kind) + " directive requires a class name as an argument")))
  {
  }

  /**
   * A successful run returns one target node whose ids hold the target id,
   * and sets exactly that key of the registry (overwriting an earlier
   * record) to a record of this document, line, target, summary, class and
   * type; every other key keeps its record.
   */
  lemma RunRegisters(registry: Option<map<string, TopicRecord>>, docName: string, d: Directive, host: Host)
    requires |d.arguments| > 0
    requires RunOutcome(registry, docName, d, host, false).result.Ok?
    ensures var out := RunOutcome(registry, docName, d, host, false);
      var className := d.arguments[0];
      var id := TargetIdOf(d.kind, host.makeId, className);
      && out.result == Ok([Target([id])])
      && out.registry.Some?
      && out.registry.value.Keys == OrEmpty(registry).Keys + {id}
      && (forall key :: key in OrEmpty(registry) && key != id ==> out.registry.value[key] == OrEmpty(registry)[key])
      && var record := out.registry.value[id];
      && record.docName == docName && record.lineno == d.lineno
      && record.target == Target([id]) && TargetRefId(record) == id
      && Ok(record.summary) == SummaryNodes(d, className, host)
      && record.fullyQualifiedName == className
      && Ok(record.topicType) == TopicTypeOf(d.kind, className, host)
  {
  }

  /** After a successful run the registry holds, at the target id, a record of this document whose target is that id. */
  lemma RunRecordsAt(registry: Option<map<string, TopicRecord>>, docName: string, d: Directive, host: Host)
    requires |d.arguments| > 0
    requires RunOutcome(registry, docName, d, host, false).result.Ok?
    ensures var topics := OrEmpty(RunOutcome(registry, docName, d, host, false).registry);
      var id := TargetIdOf(d.kind, host.makeId, d.arguments[0]);
      id in topics && topics[id].docName == docName && TargetRefId(topics[id]) == id
  {
  }

  /** A run that raises never adds, removes or changes a record. */
  lemma RunErrorKeepsRecords(registry: Option<map<string, TopicRecord>>, docName: string, d: Directive, host: Host,
                             asWritten: bool)
    requires RunOutcome(registry, docName, d, host, asWritten).result.Err?
    ensures OrEmpty(RunOutcome(registry, docName, d, host, asWritten).registry) == OrEmpty(registry)
  {
  }

  /**
   * As written, a config topic with a class name and a summary creates the
   * registry if it was absent, then raises `NotImplementedError` without
   * recording the topic.
   */
  lemma ConfigTopicAsWrittenRaises(registry: Option<map<string, TopicRecord>>, docName: string, d: Directive, host: Host)
    requires d.kind == ConfigTopic && |d.arguments| > 0
    requires SummaryNodes(d, d.arguments[0], host).Ok?
    ensures RunOutcome(registry, docName, d, host, true)
      == RunResult(Some(OrEmpty(registry)), Err(NotImplementedError))
  {
  }

  /** As written, a config topic never records anything, whatever its content and summary. */
  lemma ConfigTopicAsWrittenNeverRecords(registry: Option<map<string, TopicRecord>>, docName: string, d: Directive,
                                         host: Host)
    requires d.kind == ConfigTopic
    ensures RunOutcome(registry, docName, d, host, true).result.Err?
    ensures OrEmpty(RunOutcome(registry, docName, d, host, true).registry) == OrEmpty(registry)
  {
  }

  /** With the override under its intended name, the same config topic is recorded with type "Config". */
  lemma ConfigTopicRegisters(registry: Option<map<string, TopicRecord>>, docName: string, d: Directive, host: Host)
    requires d.kind == ConfigTopic && |d.arguments| > 0
    requires SummaryNodes(d, d.arguments[0], host).Ok?
    ensures var out := RunOutcome(registry, docName, d, host, false);
      var id := FormatConfigId(host.makeId, d.arguments[0]);
      && out.result.Ok?
      && out.registry.Some? && id in out.registry.value
      && out.registry.value[id].topicType == Config
  {
  }

  /**
   * `BaseTopicDirective.run` with the corrected config override: checks the
   * argument, builds the summary, creates the registry when absent, and
   * records the topic under its target id.
   */
  method RunTopicDirective(env: BuildEnv, d: Directive, host: Host) returns (result: Result<seq<Node>, Error>)
    modifies env
    ensures RunOutcome(old(env.taskTopics), env.docName, d, host, false) == RunResult(env.taskTopics, result)
    ensures env.docName == old(env.docName) && env.configFields == old(env.configFields)
  {
    if |d.arguments| == 0 {
      return Err(MissingArgumentError(d.kind));
    }
    var className := d.arguments[0];
    var summary := SummaryNodes(d, className, host);
    if summary.Err? {
      return Err(summary.error);
    }
    var targetId := TargetIdOf(d.kind, host.makeId, className);
    var targetNode := Target([targetId]);
    if env.taskTopics.None? {
      env.taskTopics := Some(map[]);
    }
    var topics := env.taskTopics.value;
    var topicType := TopicTypeOf(d.kind, className, host);
    if topicType.Err? {
      return Err(topicType.error);
    }
    var record := TopicRecord(env.docName, d.lineno, targetNode, summary.value, className, topicType.value);
    env.taskTopics := Some(topics[targetId := record]);
    result := Ok([targetNode]);
  }
}
