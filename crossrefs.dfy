/**
 * Cross-references to task, config and config-field topics: the target ids,
 * the roles that leave pending nodes, and the resolvers that replace every
 * pending node once all documents have been read.
 */
module CrossRefs {
  import opened Wrappers
  import opened Strings
  import opened Docutils
  import opened Env
  import opened ExtUtils

  // ---------------------------------------------------------------------
  // Target ids
  // ---------------------------------------------------------------------

  const TaskIdPrefix := "lsst-task-"
  const ConfigIdPrefix := "lsst-config-"
  const ConfigFieldIdPrefix := "lsst-configfield-"

  /** The text `format_task_id` gives to `make_id`: the task prefix, then the class name. */
  function TaskIdSource(taskClassName: string): (r: string)
    ensures |r| == |TaskIdPrefix| + |taskClassName|
    ensures r[..|TaskIdPrefix|] == TaskIdPrefix && r[|TaskIdPrefix|..] == taskClassName
  {
    TaskIdPrefix + taskClassName
  }

  /** The text `format_config_id` gives to `make_id`: the config prefix, then the class name. */
  function ConfigIdSource(configClassName: string): (r: string)
    ensures |r| == |ConfigIdPrefix| + |configClassName|
    ensures r[..|ConfigIdPrefix|] == ConfigIdPrefix && r[|ConfigIdPrefix|..] == configClassName
  {
    ConfigIdPrefix + configClassName
  }

  /**
   * The text `format_configfield_id` gives to `make_id`: the config-field
   * prefix, the class name, a `-`, then the field name.
   */
  function ConfigFieldIdSource(configClassName: string, fieldName: string): (r: string)
    ensures var n := |ConfigFieldIdPrefix| + |configClassName|;
      && |r| == n + 1 + |fieldName|
      && r[..|ConfigFieldIdPrefix|] == ConfigFieldIdPrefix
      && r[|ConfigFieldIdPrefix|..n] == configClassName
      && r[n] == '-' && r[n + 1..] == fieldName
  {
    var r := ConfigFieldIdPrefix + configClassName + "-" + fieldName;
    assert r == (ConfigFieldIdPrefix + configClassName) + ("-" + fieldName);
    r
  }

  /** `format_task_id`: the slug of the task-id text. */
  function FormatTaskId(makeId: string -> string, taskClassName: string): (id: string)
    ensures id == makeId(TaskIdSource(taskClassName))
  {
    makeId(TaskIdPrefix + taskClassName)
  }

  /** `format_config_id`: the slug of the config-id text. */
  function FormatConfigId(makeId: string -> string, configClassName: string): (id: string)
    ensures id == makeId(ConfigIdSource(configClassName))
  {
    makeId(ConfigIdPrefix + configClassName)
  }

  /** `format_configfield_id`: the slug of the config-field-id text. */
  function FormatConfigFieldId(makeId: string -> string, configClassName: string, fieldName: string): (id: string)
    ensures id == makeId(ConfigFieldIdSource(configClassName, fieldName))
  {
    makeId(ConfigFieldIdPrefix + configClassName + "-" + fieldName)
  }

  /** Before slugging, task ids and config ids each determine the class name. */
  lemma IdSourcesInjective(a: string, b: string)
    ensures TaskIdSource(a) == TaskIdSource(b) ==> a == b
    ensures ConfigIdSource(a) == ConfigIdSource(b) ==> a == b
  {
    assert TaskIdSource(a)[|TaskIdPrefix|..] == a && TaskIdSource(b)[|TaskIdPrefix|..] == b;
    assert ConfigIdSource(a)[|ConfigIdPrefix|..] == a && ConfigIdSource(b)[|ConfigIdPrefix|..] == b;
  }

  /** Before slugging, the three kinds of id never coincide, whatever the names. */
  lemma IdSourcesDisjoint(taskName: string, configName: string, className: string, fieldName: string)
    ensures TaskIdSource(taskName) != ConfigIdSource(configName)
    ensures TaskIdSource(taskName) != ConfigFieldIdSource(className, fieldName)
    ensures ConfigIdSource(configName) != ConfigFieldIdSource(className, fieldName)
  {
    assert TaskIdSource(taskName)[5] == 't';
    assert ConfigIdSource(configName)[5] == 'c' && ConfigIdSource(configName)[11] == '-';
    assert ConfigFieldIdSource(className, fieldName)[5] == 'c';
    assert ConfigFieldIdSource(className, fieldName)[11] == 'f';
  }

  /** The `-` between class and field is ambiguous: a dash may move from the class name into the field name. */
  lemma ConfigFieldIdSourceCollision()
    ensures ConfigFieldIdSource("a-b", "c") == ConfigFieldIdSource("a", "b-c")
  {
  }

  /** A field name without `-` (every Python identifier) makes the config-field id determine class and field. */
  lemma ConfigFieldIdSourceInjective(c1: string, f1: string, c2: string, f2: string)
    requires '-' !in f1 && '-' !in f2
    requires ConfigFieldIdSource(c1, f1) == ConfigFieldIdSource(c2, f2)
    ensures c1 == c2 && f1 == f2
  {
    assert ConfigFieldIdSource(c1, f1) == (ConfigFieldIdPrefix + c1) + ['-'] + f1;
    assert ConfigFieldIdSource(c2, f2) == (ConfigFieldIdPrefix + c2) + ['-'] + f2;
    LastSeparatorUnique(ConfigFieldIdPrefix + c1, f1, ConfigFieldIdPrefix + c2, f2, '-');
    assert (ConfigFieldIdPrefix + c1)[|ConfigFieldIdPrefix|..] == c1;
    assert (ConfigFieldIdPrefix + c2)[|ConfigFieldIdPrefix|..] == c2;
  }

  // ---------------------------------------------------------------------
  // The reference roles
  // ---------------------------------------------------------------------

  /** The node list and the system messages a role returns. */
  datatype RoleResult = RoleResult(nodes: seq<Node>, messages: seq<string>)

  /**
   * `TaskReferenceRole.run`, `ConfigReferenceRole.run` and
   * `ConfigFieldReferenceRole.run`: one pending node of the role's own kind
   * that keeps the role text for the resolver, and no message.
   */
  function RoleRun(kind: XrefKind, text: string): (r: RoleResult)
    ensures |r.nodes| == 1 && r.messages == []
    ensures r.nodes[0].PendingXref? && r.nodes[0].kind == kind && r.nodes[0].rawSource == text
  {
    RoleResult([PendingXref(kind, text)], [])
  }

  // ---------------------------------------------------------------------
  // Resolving one pending node
  // ---------------------------------------------------------------------

  /**
   * The link text: the custom display when it is non-empty (Python
   * truthiness), else the last dotted component of the reference when the
   * role asked for it, else the reference itself.
   */
  function DisplayText(rc: RoleContent): (t: string)
    ensures rc.display.Some? && rc.display.value != "" ==> t == rc.display.value
    ensures !(rc.display.Some? && rc.display.value != "") && rc.lastComponent ==>
      && t == SplitLast(rc.ref, '.').1
      && '.' !in t && |t| <= |rc.ref| && t == rc.ref[|rc.ref| - |t|..]
    ensures !(rc.display.Some? && rc.display.value != "") && !rc.lastComponent ==> t == rc.ref
  {
    if rc.display.Some? && rc.display.value != "" then rc.display.value
    else if rc.lastComponent then
      var split := SplitLast(rc.ref, '.');
      assert '.' in rc.ref ==> rc.ref == (split.0 + ['.']) + split.1;
      split.1
    else rc.ref
  }

  /** A label that is all blanks is stripped to nothing and so falls through to the reference. */
  lemma BlankLabelFallsThrough(shown: string, name: string)
    requires |shown| >= 1 && shown[0] != '~'
    requires forall k :: 0 <= k < |shown| ==> IsSpace(shown[k]) && shown[k] != '\n'
    requires |name| >= 1 && !IsSpace(name[0]) && !IsSpace(name[|name| - 1])
    requires '\n' !in name && '<' !in name && '>' !in name
    ensures Parse(shown + "<" + name + ">").display == Some("")
    ensures DisplayText(Parse(shown + "<" + name + ">")) == name
  {
    ParseWithDisplay(shown, name, "");
    assert shown + "<" + name + ">" + "" == shown + "<" + name + ">";
    assert LStrip(shown) == "";
    StripOfTrimmed(name);
  }

  /** What a resolver reads: the two registry attributes of the environment, the document being written and the host. */
  datatype ResolveContext = ResolveContext(
    topics: Option<map<string, TopicRecord>>,
    fields: Option<map<string, FieldRecord>>,
    fromDocName: string,
    host: Host)

  /** The node that replaces a pending node, and the warning logged for it if any. */
  datatype Resolution = Resolution(node: Node, warning: Option<string>)

  /**
   * The target id a pending node of each kind looks up: the task or config id
   * of the reference, or, for a config field, the config-field id of the text
   * before the last dot and the text after it.
   */
  function XrefId(kind: XrefKind, makeId: string -> string, ref: string): (id: string)
    ensures kind == TaskXref ==> id == FormatTaskId(makeId, ref)
    ensures kind == ConfigXref ==> id == FormatConfigId(makeId, ref)
    ensures kind == ConfigFieldXref && '.' !in ref ==> id == FormatConfigFieldId(makeId, "", ref)
  {
    match kind
    case TaskXref => FormatTaskId(makeId, ref)
    case ConfigXref => FormatConfigId(makeId, ref)
    case ConfigFieldXref =>
      var split := SplitLast(ref, '.');
      FormatConfigFieldId(makeId, split.0, split.1)
  }

  /** A config-field reference `c.f` looks up the config-field id of class `c` and field `f`. */
  lemma ConfigFieldReferenceId(makeId: string -> string, className: string, fieldName: string)
    requires '.' !in fieldName
    ensures XrefId(ConfigFieldXref, makeId, className + "." + fieldName) == FormatConfigFieldId(makeId, className, fieldName)
  {
    var ref := className + "." + fieldName;
    assert ref[|className|] == '.';
    var split := SplitLast(ref, '.');
    LastSeparatorUnique(split.0, split.1, className, fieldName, '.');
  }

  /** Whether the registry the kind reads holds `id`; config references read the task-topic registry. */
  predicate Registered(kind: XrefKind, ctx: ResolveContext, id: string)
  {
    if kind == ConfigFieldXref then id in OrEmpty(ctx.fields) else id in OrEmpty(ctx.topics)
  }

  function MissMessage(kind: XrefKind): string
  {
    match kind
    case TaskXref => "lsst-task could not find a reference to "
    case ConfigXref => "lsst-config could not find a reference to "
    case ConfigFieldXref => "lsst-config-field could not find a reference to "
  }

  /**
   * The body of the resolver loops for one pending node with role text
   * `rawSource`: a link on a registry hit, a fallback literal and a warning
   * naming the reference on a miss.
   */
  function Resolve(kind: XrefKind, ctx: ResolveContext, rawSource: string): (r: Resolution)
    ensures !r.node.PendingXref?
  {
    var rc := Parse(rawSource);
    var id := XrefId(kind, ctx.host.makeId, rc.ref);
    var linkLabel := Literal(DisplayText(rc));
    if kind == ConfigFieldXref then
      if id in OrEmpty(ctx.fields) then
        var docName := OrEmpty(ctx.fields)[id].docName;
        Resolution(Reference(docName, ctx.host.relativeUri(ctx.fromDocName, docName) + "#" + id, [linkLabel]), None)
      else
        Resolution(Literal(SplitLast(rc.ref, '.').1), Some(MissMessage(kind) + rc.ref))
    else
      if id in OrEmpty(ctx.topics) then
        var record := OrEmpty(ctx.topics)[id];
        var uri := ctx.host.relativeUri(ctx.fromDocName, record.docName) + "#" + TargetRefId(record);
        Resolution(Reference(record.docName, uri, [linkLabel]), None)
      else
        Resolution(linkLabel, Some(MissMessage(kind) + rc.ref))
  }

  /**
   * A pending node resolves to a link exactly when the registry its kind
   * reads holds its id. The link points into the record's document at the
   * record's target (at the computed id for config fields) and shows the
   * display text; a miss shows the display text (only the field name for
   * config fields) and names the reference in its warning.
   */
  lemma ResolveOutcome(kind: XrefKind, ctx: ResolveContext, rawSource: string)
    ensures var rc, r := Parse(rawSource), Resolve(kind, ctx, rawSource);
      r.warning.None? <==> Registered(kind, ctx, XrefId(kind, ctx.host.makeId, rc.ref))
    ensures var rc, r := Parse(rawSource), Resolve(kind, ctx, rawSource);
      r.warning.Some? ==>
        && r.warning.value == MissMessage(kind) + rc.ref
        && r.node == Literal(if kind == ConfigFieldXref then SplitLast(rc.ref, '.').1 else DisplayText(rc))
    ensures var rc, r := Parse(rawSource), Resolve(kind, ctx, rawSource);
      var id := XrefId(kind, ctx.host.makeId, rc.ref);
      r.warning.None? ==>
        && r.node.Reference?
        && r.node.children == [Literal(DisplayText(rc))]
        && (kind == ConfigFieldXref ==>
              var docName := OrEmpty(ctx.fields)[id].docName;
              r.node.refDocName == docName
              && r.node.refUri == ctx.host.relativeUri(ctx.fromDocName, docName) + "#" + id)
        && (kind != ConfigFieldXref ==>
              var record := OrEmpty(ctx.topics)[id];
              r.node.refDocName == record.docName
              && r.node.refUri == ctx.host.relativeUri(ctx.fromDocName, record.docName) + "#" + TargetRefId(record))
  {
    if kind == ConfigFieldXref {
    } else {
    }
  }

  /** A reference whose id is not registered resolves to the fallback literal and the warning. */
  lemma ResolveMiss(kind: XrefKind, ctx: ResolveContext, rawSource: string)
    requires !Registered(kind, ctx, XrefId(kind, ctx.host.makeId, Parse(rawSource).ref))
    ensures var rc := Parse(rawSource);
      Resolve(kind, ctx, rawSource)
        == Resolution(Literal(if kind == ConfigFieldXref then SplitLast(rc.ref, '.').1 else DisplayText(rc)),
                      Some(MissMessage(kind) + rc.ref))
  {
    ResolveOutcome(kind, ctx, rawSource);
  }

  /** A task or config reference whose id is in the task-topic registry links to the record's document and target. */
  lemma ResolveTopicHit(kind: XrefKind, ctx: ResolveContext, rawSource: string)
    requires kind != ConfigFieldXref
    requires XrefId(kind, ctx.host.makeId, Parse(rawSource).ref) in OrEmpty(ctx.topics)
    ensures var rc := Parse(rawSource);
      var record := OrEmpty(ctx.topics)[XrefId(kind, ctx.host.makeId, rc.ref)];
      var uri := ctx.host.relativeUri(ctx.fromDocName, record.docName) + "#" + TargetRefId(record);
      Resolve(kind, ctx, rawSource) == Resolution(Reference(record.docName, uri, [Literal(DisplayText(rc))]), None)
  {
  }

  // ---------------------------------------------------------------------
  // A resolver pass over a document
  // ---------------------------------------------------------------------

  predicate IsPending(node: Node, kind: XrefKind)
  {
    node.PendingXref? && node.kind == kind
  }

  /** The resolution of every pending node of one kind against one context. */
  function Resolver(kind: XrefKind, ctx: ResolveContext): string -> Resolution
  {
    rawSource => Resolve(kind, ctx, rawSource)
  }

  /** The nodes after each pending node of `kind` is replaced by what `resolve` makes of its role text. */
  function ReplacedNodes(kind: XrefKind, resolve: string -> Resolution, nodes: seq<Node>): (r: seq<Node>)
    ensures |r| == |nodes|
    ensures forall i :: 0 <= i < |r| && !IsPending(nodes[i], kind) ==> r[i] == nodes[i]
  {
    seq(|nodes|, i requires 0 <= i < |nodes| =>
      if IsPending(nodes[i], kind) then resolve(nodes[i].rawSource).node else nodes[i])
  }

  /** The warning each node draws: only a pending node of `kind` can draw one. */
  function PendingOutcomes(kind: XrefKind, resolve: string -> Resolution, nodes: seq<Node>): (r: seq<Option<string>>)
    ensures |r| == |nodes|
    ensures forall i :: 0 <= i < |r| && !IsPending(nodes[i], kind) ==> r[i].None?
  {
    seq(|nodes|, i requires 0 <= i < |nodes| =>
      if IsPending(nodes[i], kind) then resolve(nodes[i].rawSource).warning else None)
  }

  /**
   * The document after a pass: same length and order, no pending node of the
   * kind left, and every other node where it was.
   */
  function ResolvedNodes(kind: XrefKind, ctx: ResolveContext, nodes: seq<Node>): (r: seq<Node>)
    ensures |r| == |nodes|
    ensures forall i :: 0 <= i < |r| ==> !IsPending(r[i], kind)
    ensures forall i :: 0 <= i < |r| && !IsPending(nodes[i], kind) ==> r[i] == nodes[i]
  {
    ReplacedNodes(kind, Resolver(kind, ctx), nodes)
  }

  /** The log of a pass: one warning per `Some`, in order, located at its index. */
  function CollectWarnings(outcomes: seq<Option<string>>): seq<Warning>
  {
    if outcomes == [] then []
    else
      var i := |outcomes| - 1;
      var earlier := CollectWarnings(outcomes[..i]);
      if outcomes[i].Some? then earlier + [Warning(outcomes[i].value, i)] else earlier
  }

  /** The warnings of a pass, in document order, each at the index of its node. */
  function PassWarnings(kind: XrefKind, ctx: ResolveContext, nodes: seq<Node>): seq<Warning>
  {
    CollectWarnings(PendingOutcomes(kind, Resolver(kind, ctx), nodes))
  }

  /**
   * One warning per miss: every warning sits at a `Some` and carries its
   * message, locations strictly increase, and every `Some` has a warning.
   */
  lemma {:induction false} CollectWarningsExact(outcomes: seq<Option<string>>)
    ensures var ws := CollectWarnings(outcomes);
      && (forall k :: 0 <= k < |ws| ==>
            ws[k].location < |outcomes| && outcomes[ws[k].location] == Some(ws[k].message))
      && (forall k, l :: 0 <= k < l < |ws| ==> ws[k].location < ws[l].location)
      && (forall i :: 0 <= i < |outcomes| && outcomes[i].Some? ==>
            exists k :: 0 <= k < |ws| && ws[k].location == i)
  {
    if outcomes != [] {
      var i := |outcomes| - 1;
      var earlier := outcomes[..i];
      CollectWarningsExact(earlier);
      var ews := CollectWarnings(earlier);
      var ws := CollectWarnings(outcomes);
      forall j | 0 <= j < |outcomes| && outcomes[j].Some?
        ensures exists k :: 0 <= k < |ws| && ws[k].location == j
      {
        if j < i {
          assert earlier[j] == outcomes[j];
          var k :| 0 <= k < |ews| && ews[k].location == j;
          assert ws[k] == ews[k];
        } else {
          assert ws[|ws| - 1].location == j;
        }
      }
    }
  }

  /** A pending node of the kind whose id is not in the registry its kind reads. */
  predicate Misses(kind: XrefKind, ctx: ResolveContext, node: Node)
  {
    IsPending(node, kind) && !Registered(kind, ctx, XrefId(kind, ctx.host.makeId, Parse(node.rawSource).ref))
  }

  /**
   * A pass logs one warning per miss and nothing else: each warning sits at a
   * pending node whose id is unregistered and names that node's reference,
   * and every such node draws a warning.
   */
  lemma PassWarningsAreMisses(kind: XrefKind, ctx: ResolveContext, nodes: seq<Node>)
    ensures var ws := PassWarnings(kind, ctx, nodes);
      && (forall k :: 0 <= k < |ws| ==>
            && ws[k].location < |nodes|
            && Misses(kind, ctx, nodes[ws[k].location])
            && ws[k].message == MissMessage(kind) + Parse(nodes[ws[k].location].rawSource).ref)
      && (forall i :: 0 <= i < |nodes| && Misses(kind, ctx, nodes[i]) ==>
            exists k :: 0 <= k < |ws| && ws[k].location == i)
  {
    var outcomes := PendingOutcomes(kind, Resolver(kind, ctx), nodes);
    var ws := PassWarnings(kind, ctx, nodes);
    CollectWarningsExact(outcomes);
    forall k | 0 <= k < |ws|
      ensures && ws[k].location < |nodes|
              && Misses(kind, ctx, nodes[ws[k].location])
              && ws[k].message == MissMessage(kind) + Parse(nodes[ws[k].location].rawSource).ref
    {
      var i := ws[k].location;
      assert ws[k] == CollectWarnings(outcomes)[k];
      assert outcomes[i] == Some(ws[k].message);
      assert IsPending(nodes[i], kind);
      assert outcomes[i] == Resolve(kind, ctx, nodes[i].rawSource).warning;
      ResolveOutcome(kind, ctx, nodes[i].rawSource);
    }
    forall i | 0 <= i < |nodes| && Misses(kind, ctx, nodes[i])
      ensures exists k :: 0 <= k < |ws| && ws[k].location == i
    {
      assert outcomes[i] == Resolve(kind, ctx, nodes[i].rawSource).warning;
      ResolveOutcome(kind, ctx, nodes[i].rawSource);
      assert outcomes[i].Some?;
    }
  }

  /** With no pending node of the kind, a pass logs nothing. */
  lemma {:induction false} NoMissNoWarnings(outcomes: seq<Option<string>>)
    requires forall i :: 0 <= i < |outcomes| ==> outcomes[i].None?
    ensures CollectWarnings(outcomes) == []
  {
    if outcomes != [] {
      NoMissNoWarnings(outcomes[..|outcomes| - 1]);
    }
  }

  /**
   * A second pass of the same kind, against any registries, changes nothing
   * and logs nothing.
   */
  lemma ResolveIdempotent(kind: XrefKind, ctx: ResolveContext, later: ResolveContext, nodes: seq<Node>)
    ensures ResolvedNodes(kind, later, ResolvedNodes(kind, ctx, nodes)) == ResolvedNodes(kind, ctx, nodes)
    ensures PassWarnings(kind, later, ResolvedNodes(kind, ctx, nodes)) == []
  {
    NoMissNoWarnings(PendingOutcomes(kind, Resolver(kind, later), ResolvedNodes(kind, ctx, nodes)));
  }

  /**
   * The loop the three resolvers share: walks the document and replaces, in
   * place, each pending node of `kind` by what `resolve` makes of its role
   * text, logging the warning that comes with it.
   */
  method ReplacePendingNodes(kind: XrefKind, resolve: string -> Resolution, doctree: array<Node>)
    returns (warnings: seq<Warning>)
    modifies doctree
    ensures doctree[..] == ReplacedNodes(kind, resolve, old(doctree[..]))
    ensures warnings == CollectWarnings(PendingOutcomes(kind, resolve, old(doctree[..])))
  {
    ghost var original := doctree[..];
    ghost var outcomes := PendingOutcomes(kind, resolve, original);
    ghost var replaced := ReplacedNodes(kind, resolve, original);
    warnings := [];
    for i := 0 to doctree.Length
      invariant forall j :: 0 <= j < i ==> doctree[j] == replaced[j]
      invariant forall j :: i <= j < doctree.Length ==> doctree[j] == original[j]
      invariant warnings == CollectWarnings(outcomes[..i])
    {
      var node := doctree[i];
      assert outcomes[..i + 1][..i] == outcomes[..i];
      if node.PendingXref? && node.kind == kind {
        var resolution := resolve(node.rawSource);
        doctree[i] := resolution.node;
        if resolution.warning.Some? {
          warnings := warnings + [Warning(resolution.warning.value, i)];
        }
      }
    }
    assert outcomes[..doctree.Length] == outcomes;
    assert doctree[..] == replaced;
  }

  /**
   * `process_pending_task_xref_nodes`, `process_pending_config_xref_nodes`
   * and `process_pending_configfield_xref_nodes`: replaces, in place, every
   * pending node of `kind` in the document, reading the environment's
   * registries without changing them.
   */
  method ProcessPendingXrefNodes(kind: XrefKind, env: BuildEnv, doctree: array<Node>, fromDocName: string, host: Host)
    returns (warnings: seq<Warning>)
    modifies doctree
    ensures var ctx := ResolveContext(env.taskTopics, env.configFields, fromDocName, host);
      && doctree[..] == ResolvedNodes(kind, ctx, old(doctree[..]))
      && warnings == PassWarnings(kind, ctx, old(doctree[..]))
  {
    var ctx := ResolveContext(env.taskTopics, env.configFields, fromDocName, host);
    warnings := ReplacePendingNodes(kind, Resolver(kind, ctx), doctree);
  }

  method ProcessPendingTaskXrefNodes(env: BuildEnv, doctree: array<Node>, fromDocName: string, host: Host)
    returns (warnings: seq<Warning>)
    modifies doctree
    ensures var ctx := ResolveContext(env.taskTopics, env.configFields, fromDocName, host);
      && doctree[..] == ResolvedNodes(TaskXref, ctx, old(doctree[..]))
      && warnings == PassWarnings(TaskXref, ctx, old(doctree[..]))
  {
    warnings := ProcessPendingXrefNodes(TaskXref, env, doctree, fromDocName, host);
  }

  method ProcessPendingConfigXrefNodes(env: BuildEnv, doctree: array<Node>, fromDocName: string, host: Host)
    returns (warnings: seq<Warning>)
    modifies doctree
    ensures var ctx := ResolveContext(env.taskTopics, env.configFields, fromDocName, host);
      && doctree[..] == ResolvedNodes(ConfigXref, ctx, old(doctree[..]))
      && warnings == PassWarnings(ConfigXref, ctx, old(doctree[..]))
  {
    warnings := ProcessPendingXrefNodes(ConfigXref, env, doctree, fromDocName, host);
  }

  method ProcessPendingConfigFieldXrefNodes(env: BuildEnv, doctree: array<Node>, fromDocName: string, host: Host)
    returns (warnings: seq<Warning>)
    modifies doctree
    ensures var ctx := ResolveContext(env.taskTopics, env.configFields, fromDocName, host);
      && doctree[..] == ResolvedNodes(ConfigFieldXref, ctx, old(doctree[..]))
      && warnings == PassWarnings(ConfigFieldXref, ctx, old(doctree[..]))
  {
    warnings := ProcessPendingXrefNodes(ConfigFieldXref, env, doctree, fromDocName, host);
  }
}
