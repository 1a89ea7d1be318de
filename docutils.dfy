/**
 * The parts of docutils and Sphinx the extension talks to: the inline nodes
 * it reads and builds, the warnings it logs, the errors it raises, and the
 * host functions it calls but does not define.
 */
module Docutils {
  import opened Wrappers

  /** The three placeholder node classes: `pending_task_xref`, `pending_config_xref`, `pending_configfield_xref`. */
  datatype XrefKind = TaskXref | ConfigXref | ConfigFieldXref

  /** Inline document nodes, in document order. */
  datatype Node =
    | Text(text: string)
      /** A `literal` element whose only child is a text node holding `text`. */
    | Literal(text: string)
      /** A `reference` element with its `refdocname` and `refuri` attributes. */
    | Reference(refDocName: string, refUri: string, children: seq<Node>)
      /** A `target` element with its `ids` attribute. */
    | Target(ids: seq<string>)
      /** A pending cross-reference left by a role; `rawSource` is the role's text. */
    | PendingXref(kind: XrefKind, rawSource: string)

  /** A message given to the Sphinx logger at warning level, at the index of the node it is about. */
  datatype Warning = Warning(message: string, location: nat)

  /** The exceptions a directive can raise. */
  datatype Error = SphinxError(message: string) | NotImplementedError

  /**
   * Functions of docutils, Sphinx and Python introspection that the extension
   * calls: `nodes.make_id`, `builder.get_relative_uri(from, to)`,
   * `parse_content_to_nodes`, `parse_text_to_nodes`, `prepare_docstring`,
   * `getdoc` of the class a dotted name imports, and
   * `issubclass(cls, PipelineTask)` of that class.
   */
  datatype Host = Host(
    makeId: string -> string,
    relativeUri: (string, string) -> string,
    parseContent: seq<string> -> seq<Node>,
    parseText: string -> seq<Node>,
    prepareDocstring: string -> seq<string>,
    docstringOf: string -> Option<string>,
    isPipelineTask: string -> bool)
}
