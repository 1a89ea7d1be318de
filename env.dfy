/**
 * The Sphinx build environment as the topic directives and the resolvers see
 * it: the document being read and the two registry attributes the directives
 * attach to it lazily.
 */
module Env {
  import opened Wrappers
  import opened Docutils

  /** The `type` string of a topic record: "Task", "PipelineTask", "Configurable" or "Config". */
  datatype TopicType = Task | PipelineTask | Configurable | Config

  /** One value of the `lsst_task_topics` dictionary. */
  datatype TopicRecord = TopicRecord(
    docName: string,
    lineno: nat,
    target: Node,
    summary: seq<Node>,
    fullyQualifiedName: string,
    topicType: TopicType)

  /** One value of the `lsst_configfields` dictionary, as far as the resolver reads it. */
  datatype FieldRecord = FieldRecord(docName: string)

  /**
   * The `refid` of a record's target node. docutils' target propagation sets
   * it to the target's id once the directive's output is in the document.
   */
  function TargetRefId(record: TopicRecord): string
  {
    if record.target.Target? && |record.target.ids| > 0 then record.target.ids[0] else ""
  }

  /** A registry attribute, read as an empty dictionary while unset. */
  function OrEmpty<V>(registry: Option<map<string, V>>): map<string, V>
  {
    if registry.Some? then registry.value else map[]
  }

  /**
   * `app.builder.env`. `taskTopics` is the `lsst_task_topics` attribute and
   * `configFields` the `lsst_configfields` attribute; `None` means the
   * attribute has not been set (`hasattr` is false).
   */
  class BuildEnv {
    var docName: string
    var taskTopics: Option<map<string, TopicRecord>>
    var configFields: Option<map<string, FieldRecord>>

    constructor (docName: string)
      ensures this.docName == docName
      ensures taskTopics == None && configFields == None
    {
      this.docName := docName;
      taskTopics := None;
      configFields := None;
    }
  }
}
