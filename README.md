# lsst-sphinxutils: topic directives and deferred cross-references

This project models the core of `lsst.sphinxutils`, the Sphinx extensions that LSST uses to document its task framework.

- **Topic directives.** The directives `lsst-task-topic` and `lsst-configurable-topic` each emit a target node. Each also records the topic in the build environment's `lsst_task_topics` dictionary, under a slugged target id. `lsst-config-topic` is meant to do the same under a config id. As written, it raises `NotImplementedError` before recording or returning anything (see "## Findings").
- **Reference roles.** The roles `lsst-task`, `lsst-config` and `lsst-config-field` leave pending placeholder nodes.
- **Resolvers.** Once every document has been read, three resolvers walk each finished document. Each replaces its kind of placeholder by one of two things:
  - a link into the recording document, or
  - a fallback literal, together with a warning.
- **Shared helpers.** The model also covers the helpers these pieces share:
  - `RoleContent.parse`, the parser for the `~`, `display <reference>` and plain forms of role text;
  - `make_section`;
  - docstring summary extraction;
  - `get_type`'s name split;
  - the alphabetical member ordering.
- **Doxygen tag files.** It models the name listing of `get_tag_entity_names`, taken after the XML has been read.

Modules follow the source files:

| module | file |
|---|---|
| `ExtUtils` | `ext/utils.py` |
| `TaskUtils` | `ext/lssttasks/_utils.py` |
| `CrossRefs` | `ext/lssttasks/_crossrefs.py` |
| `Topics` | `ext/lssttasks/_topics.py` |
| `DoxygenTag` | `build/_doxygentag.py` |

`Protocol` joins the two halves of the deferred protocol: what a directive run records is what a later reference resolves to.

The supporting modules model the Python built-ins the source relies on:

- `Strings`: `str.isspace`, `strip`, `lstrip`, `split`, `join`.
- `StringOrder`: string ordering and `list.sort`.
- `Docutils`: inline nodes, warnings, errors, and the host functions the extension calls but does not define.
- `Env`: the build environment and its two registry attributes.
- `Wrappers`: `Option` and `Result`.

State that the source updates in place is modelled imperatively:

- The build environment is a class, `Env.BuildEnv`. Its `taskTopics` registry is `None` until a directive first creates it.
- A document is an `array<Node>` whose pending nodes the resolver methods overwrite one by one.
- The topic run, the summary extraction, the tag-name walk and `make_section` are methods. Each is proved against a specification function, and the properties are proved about that function.

Points of the source worth noting:

- **Summary fallback.** The fallback sentence "No description available." replaces the summary only when the summary is empty before trimming. A summary made only of blanks trims to an empty line (`Topics.BlankSummaryNotReplaced`).
- **Summary lines.** The summary takes the lines before the first empty line. It does not include that empty line.
- **Config resolver registry.** The config resolver looks its ids up in `lsst_task_topics`; there is no separate config registry.
- **Config-field miss.** On a miss, the config-field resolver shows only the bare field name, not the display text the other two resolvers use.

## Model

| member | source | states |
|---|---|---|
| Strings.SpaceCharacters | python/lsst/sphinxutils/ext/utils.py:71-76 | `IsSpace` is `str.isspace` on one code point (the CPython whitespace set); blank, tab, newline and carriage return are whitespace, and no ASCII letter, digit or role-syntax character (`~ < > . - _`) is |
| Strings.LStrip | python/lsst/sphinxutils/ext/utils.py:76 | the result is a suffix of the input, every dropped character is whitespace, and the result does not start with whitespace |
| Strings.RStrip | python/lsst/sphinxutils/ext/utils.py:76 | the result is a prefix of the input, every dropped character is whitespace, and the result does not end with whitespace |
| Strings.Strip | python/lsst/sphinxutils/ext/utils.py:71-76 | `str.strip()`: the result has no whitespace at either end |
| Strings.StripIsSlice | python/lsst/sphinxutils/ext/utils.py:71-76 | the stripped text is the contiguous slice of the input between the leading and trailing whitespace runs, which are all whitespace |
| Strings.StripOfTrimmed | python/lsst/sphinxutils/ext/utils.py:76 | a text without whitespace at either end is its own strip |
| Strings.StripTrailingSpace | python/lsst/sphinxutils/ext/utils.py:71 | a label followed by one blank (the form `Tables <...>`) strips back to the label |
| Strings.StripLeadingSpace | python/lsst/sphinxutils/ext/utils.py:76 | a leading whitespace character never changes the strip |
| Strings.LStripChar | python/lsst/sphinxutils/ext/utils.py:65 | `lstrip("~")` drops exactly the leading run of `~`: what remains is a suffix that does not start with `~`, and everything dropped was `~` |
| Strings.Split | python/lsst/sphinxutils/ext/lssttasks/_utils.py:95 | `str.split(sep)` is never empty, no part contains the separator, joining the parts gives back the text, and there is a single part exactly when the separator is absent |
| Strings.Join | python/lsst/sphinxutils/ext/lssttasks/_utils.py:79 | `sep.join(parts)`: empty for no parts, the part itself for one, and it always starts with the first part; `Strings.Split` is its inverse (`Join(Split(s)) == s`) and `Strings.SplitJoin` the converse |
| Strings.JoinSnoc | python/lsst/sphinxutils/ext/lssttasks/_utils.py:79 | joining one more part at the end appends the separator and that part |
| Strings.SplitJoin | python/lsst/sphinxutils/ext/lssttasks/_crossrefs.py:286-288 | splitting the join of separator-free parts gives back those parts |
| Strings.SplitLast | python/lsst/sphinxutils/ext/lssttasks/_crossrefs.py:286-288 | the field name has no dot; with a dot, namespace + "." + field is the reference; without one, the namespace is empty and the field is the whole reference |
| Strings.LastSeparatorUnique | python/lsst/sphinxutils/ext/lssttasks/_crossrefs.py:286-288 | a separator-free tail after the last separator fixes both halves of the split |
| StringOrder.Le | python/lsst/sphinxutils/build/_doxygentag.py:50 | Python's `<=` on strings: a prefix comes first, and otherwise the first differing code point decides |
| StringOrder.LeTotal | python/lsst/sphinxutils/build/_doxygentag.py:50 | Python's string order is total |
| StringOrder.LeTransitive | python/lsst/sphinxutils/build/_doxygentag.py:50 | Python's string order is transitive |
| StringOrder.LeAntisymmetric | python/lsst/sphinxutils/build/_doxygentag.py:50 | Python's string order is antisymmetric |
| StringOrder.Insert | python/lsst/sphinxutils/build/_doxygentag.py:50 | inserting into a sorted list keeps it sorted and adds exactly one copy of the element |
| StringOrder.Sort | python/lsst/sphinxutils/build/_doxygentag.py:50 | `list.sort()`: the result is sorted, and it is a permutation of the input |
| StringOrder.SortedUnique | python/lsst/sphinxutils/build/_doxygentag.py:50 | two sorted lists holding the same elements are equal, so the sorted result does not depend on the input order |
| ExtUtils.MatchDisplayPattern | python/lsst/sphinxutils/ext/utils.py:16 | `ROLE_DISPLAY_PATTERN.match` returns the greedy split (the last usable `<`, then the last `>` before the first newline) exactly when some split matches |
| ExtUtils.GreedyDisplayMatchUnique | python/lsst/sphinxutils/ext/utils.py:16 | the greedy match of the pattern is unique |
| ExtUtils.GreedyMatchIsReported | python/lsst/sphinxutils/ext/utils.py:69 | whenever a greedy match exists, `match` reports that match |
| ExtUtils.WithoutSigil | python/lsst/sphinxutils/ext/utils.py:61-67 | text starting with `~` becomes `lstrip("~")` of it (`Strings.LStripChar`), losing exactly its leading run of `~`; other text is untouched |
| ExtUtils.Parse | python/lsst/sphinxutils/ext/utils.py:38-78 | the flag is set exactly when the text starts with `~`; display is present exactly when the pattern matches; display and reference are the stripped groups, or the reference is the whole stripped text |
| ExtUtils.ParseDisplayIffMatch | python/lsst/sphinxutils/ext/utils.py:69-76 | a custom display is present if and only if some split of the text matches the pattern |
| ExtUtils.ParseGreedy | python/lsst/sphinxutils/ext/utils.py:69-72 | with a match, display and reference are the stripped groups of the greedy match |
| ExtUtils.ParseEmpty | python/lsst/sphinxutils/ext/utils.py:61-78 | `parse` never fails; the empty text gives no flag, no display and an empty reference |
| ExtUtils.DisplayAroundName | python/lsst/sphinxutils/ext/utils.py:16 | in `shown<name>rest`, where the name holds no angle brackets and the rest holds no `>`, the greedy match splits at the brackets around the name |
| ExtUtils.ParseWithDisplay | tests/ext/test_utils.py:13-18 | `label <name>` parses to no flag, display `strip(label)` and reference `strip(name)` (the `Tables <lsst.afw.table.Table>` case) |
| ExtUtils.ParsePlain | python/lsst/sphinxutils/ext/utils.py:61-76 | a plain name parses to itself without display; with one `~` in front, the flag is also set |
| ExtUtils.ParseNoCloseOnFirstLine | python/lsst/sphinxutils/ext/utils.py:69-76 | without a `>` before the first newline there is no display, because `.` does not cross a newline |
| ExtUtils.ParseTildeAfterBlank | python/lsst/sphinxutils/ext/utils.py:61-76 | `~ ~name` keeps a `~` at the head of the reference: only the leading run is removed, before trimming |
| ExtUtils.ParseWithoutClose | python/lsst/sphinxutils/ext/utils.py:69-76 | text with no `>` after the markers is a plain reference: the stripped text, with the flag as written |
| ExtUtils.WithoutOneSigil | python/lsst/sphinxutils/ext/utils.py:61-65 | a single `~` in front of text that does not start with `~` is removed |
| ExtUtils.ParseExampleLastComponent | tests/ext/test_utils.py:20-23 | `~lsst.afw.table.Table` parses to flag set, no display, reference `lsst.afw.table.Table` |
| ExtUtils.ParseExampleNoDisplay | tests/ext/test_utils.py:25-28 | `lsst.afw.table.Table` parses to no flag, no display, reference `lsst.afw.table.Table` |
| ExtUtils.MakeSection | python/lsst/sphinxutils/ext/utils.py:81-102 | a fresh section whose ids are the slug of the section id, whose names are the section id, and whose children are the contents in order (none when no contents are given) |
| CrossRefs.TaskIdSource | python/lsst/sphinxutils/ext/lssttasks/_crossrefs.py:41 | the task-id text is `lsst-task-` followed by the class name |
| CrossRefs.ConfigIdSource | python/lsst/sphinxutils/ext/lssttasks/_crossrefs.py:58 | the config-id text is `lsst-config-` followed by the class name |
| CrossRefs.ConfigFieldIdSource | python/lsst/sphinxutils/ext/lssttasks/_crossrefs.py:77 | the config-field-id text is `lsst-configfield-`, the class name, a `-`, then the field name |
| CrossRefs.FormatTaskId | python/lsst/sphinxutils/ext/lssttasks/_crossrefs.py:27-41 | `format_task_id` is `make_id` of the task-id text; directives and references share it (`Topics.TargetIdIsReferenceId`) |
| CrossRefs.FormatConfigId | python/lsst/sphinxutils/ext/lssttasks/_crossrefs.py:44-58 | `format_config_id` is `make_id` of the config-id text; directives and references share it (`Topics.TargetIdIsReferenceId`) |
| CrossRefs.FormatConfigFieldId | python/lsst/sphinxutils/ext/lssttasks/_crossrefs.py:61-77 | `format_configfield_id` is `make_id` of the config-field-id text |
| CrossRefs.IdSourcesInjective | python/lsst/sphinxutils/ext/lssttasks/_crossrefs.py:41-58 | before slugging, a task id and a config id each determine the class name |
| CrossRefs.IdSourcesDisjoint | python/lsst/sphinxutils/ext/lssttasks/_crossrefs.py:41-77 | before slugging, task, config and config-field ids never coincide |
| CrossRefs.ConfigFieldIdSourceCollision | python/lsst/sphinxutils/ext/lssttasks/_crossrefs.py:77 | the `-` between class and field is ambiguous: (`a-b`, `c`) and (`a`, `b-c`) give the same id |
| CrossRefs.ConfigFieldIdSourceInjective | python/lsst/sphinxutils/ext/lssttasks/_crossrefs.py:77 | for field names without `-` (every Python identifier), the config-field id determines both class and field |
| CrossRefs.RoleRun | python/lsst/sphinxutils/ext/lssttasks/_crossrefs.py:106-116 | each role returns one pending node of its own kind that keeps the role text, and no message |
| CrossRefs.DisplayText | python/lsst/sphinxutils/ext/lssttasks/_crossrefs.py:134-141 | a non-empty custom display wins; otherwise, with the flag, `ref.split(".")[-1]` (`Strings.SplitLast`'s tail, a dot-free suffix of the reference); otherwise the reference |
| CrossRefs.BlankLabelFallsThrough | python/lsst/sphinxutils/ext/lssttasks/_crossrefs.py:134-141 | a label of blanks is stripped to the empty string, which is falsy, so the link shows the reference |
| CrossRefs.XrefId | python/lsst/sphinxutils/ext/lssttasks/_crossrefs.py:133-289 | a task reference looks up the task id of its reference and a config reference the config id; a dot-free config-field reference looks up the field of the empty class name |
| CrossRefs.ConfigFieldReferenceId | python/lsst/sphinxutils/ext/lssttasks/_crossrefs.py:286-289 | the config-field reference `c.f`, with `f` dot-free, looks up the config-field id of class `c` and field `f` |
| CrossRefs.Resolve | python/lsst/sphinxutils/ext/lssttasks/_crossrefs.py:126-167 | a resolved node is never a pending node |
| CrossRefs.ResolveOutcome | python/lsst/sphinxutils/ext/lssttasks/_crossrefs.py:145-164 | no warning if and only if the id is in the registry its kind reads (config reads the task-topic registry). A hit is a link to the record's document and target (to the computed id for config fields) labelled with the display text. A miss is the display-text literal (the bare field name for config fields) plus a warning naming the reference |
| CrossRefs.ResolveTopicHit | python/lsst/sphinxutils/ext/lssttasks/_crossrefs.py:145-157 | a task or config reference whose id is in the task-topic registry resolves to a link into the record's document at the record's target, labelled with the display text, and logs nothing |
| CrossRefs.ResolveMiss | python/lsst/sphinxutils/ext/lssttasks/_crossrefs.py:159-164 | an unregistered id resolves exactly to the fallback literal and the miss warning |
| CrossRefs.ReplacedNodes | python/lsst/sphinxutils/ext/lssttasks/_crossrefs.py:126-167 | replacing keeps the document's length and every node that is not a pending node of the kind |
| CrossRefs.PendingOutcomes | python/lsst/sphinxutils/ext/lssttasks/_crossrefs.py:159-164 | only a pending node of the kind can draw a warning |
| CrossRefs.ResolvedNodes | python/lsst/sphinxutils/ext/lssttasks/_crossrefs.py:126-167 | after a pass the document has the same length, no pending node of the kind is left, and every other node is where it was |
| CrossRefs.CollectWarningsExact | python/lsst/sphinxutils/ext/lssttasks/_crossrefs.py:163-164 | one warning per miss: each warning sits at a miss and carries its message, locations strictly increase, and every miss has a warning |
| CrossRefs.PassWarningsAreMisses | python/lsst/sphinxutils/ext/lssttasks/_crossrefs.py:126-167 | every warning of a pass is at a pending node whose id is unregistered and names that node's reference, and every such node draws a warning |
| CrossRefs.NoMissNoWarnings | python/lsst/sphinxutils/ext/lssttasks/_crossrefs.py:159-164 | a pass with no miss logs nothing |
| CrossRefs.ResolveIdempotent | python/lsst/sphinxutils/ext/lssttasks/_crossrefs.py:126-167 | a second pass of the same kind, against any registries, changes nothing and logs nothing |
| CrossRefs.ReplacePendingNodes | python/lsst/sphinxutils/ext/lssttasks/_crossrefs.py:126-167 | the loop replaces each pending node of the kind in place by its resolution, leaves other nodes alone, and logs the warnings in document order at their indexes |
| CrossRefs.ProcessPendingXrefNodes | python/lsst/sphinxutils/ext/lssttasks/_crossrefs.py:119-167 | the document becomes the resolved document of the kind against the environment's registries, and the warnings are those of the pass |
| CrossRefs.ProcessPendingTaskXrefNodes | python/lsst/sphinxutils/ext/lssttasks/_crossrefs.py:119-167 | the task resolver pass, in place, against the task-topic registry |
| CrossRefs.ProcessPendingConfigXrefNodes | python/lsst/sphinxutils/ext/lssttasks/_crossrefs.py:188-243 | the config resolver pass, in place, against the task-topic registry |
| CrossRefs.ProcessPendingConfigFieldXrefNodes | python/lsst/sphinxutils/ext/lssttasks/_crossrefs.py:266-325 | the config-field resolver pass, in place, against the config-field registry |
| TaskUtils.SummaryLines | python/lsst/sphinxutils/ext/lssttasks/_utils.py:73-78 | the summary lines are a prefix of the docstring, none of them is empty, and they stop at an empty line or at the end |
| TaskUtils.SummaryLinesUnique | python/lsst/sphinxutils/ext/lssttasks/_utils.py:73-78 | any prefix of non-empty lines that ends at an empty line or at the end is the summary |
| TaskUtils.SummaryIgnoresLaterLines | python/lsst/sphinxutils/ext/lssttasks/_utils.py:73-79 | lines after the first empty line never change the summary, which is the earlier lines joined by single spaces |
| TaskUtils.ExtractDocstringSummary | python/lsst/sphinxutils/ext/lssttasks/_utils.py:60-79 | the loop returns the summary lines joined by single spaces; that is empty when the first line is empty, and the whole docstring joined when no line is empty |
| TaskUtils.GetType | python/lsst/sphinxutils/ext/lssttasks/_utils.py:82-100 | a name without a dot is refused with the "fully-qualified" error; otherwise module + "." + attribute is the name, and the attribute holds no dot |
| TaskUtils.GetDocstring | python/lsst/sphinxutils/ext/lssttasks/_utils.py:32-57 | a missing docstring becomes the prepared "Undocumented" and logs one warning; a present docstring is prepared and logs nothing |
| TaskUtils.DistinctPermutation | python/lsst/sphinxutils/ext/lssttasks/_utils.py:228-229 | sorting the distinct keys of a dictionary keeps them distinct |
| TaskUtils.PairsOfReorderedKeys | python/lsst/sphinxutils/ext/lssttasks/_utils.py:230 | pairing each key of a reordering of the keys with its value gives back exactly the dictionary's pairs |
| TaskUtils.AlphabeticalMembers | python/lsst/sphinxutils/ext/lssttasks/_utils.py:198-230 | the same key/value pairs, as many of them, with keys strictly ascending |
| Topics.TargetIdOf | python/lsst/sphinxutils/ext/lssttasks/_topics.py:100-142 | configurable and task topics use the task-id namespace; config topics use the config-id namespace |
| Topics.TargetIdIsReferenceId | python/lsst/sphinxutils/ext/lssttasks/_topics.py:100-142 | the id a task or configurable topic claims is the id a task reference to the same class looks up, and a config topic's id is the one a config reference looks up |
| Topics.TaskAndConfigurableShareId | python/lsst/sphinxutils/ext/lssttasks/_topics.py:106-126 | a task topic and a configurable topic for the same class claim the same target id |
| Topics.TopicTypeAsWritten | python/lsst/sphinxutils/ext/lssttasks/_topics.py:129-142 | as written, a config topic's type raises `NotImplementedError`; the other two kinds behave as intended |
| Topics.TopicTypeOf | python/lsst/sphinxutils/ext/lssttasks/_topics.py:100-139 | "Config" exactly for config topics and "Configurable" exactly for configurable topics. A task topic fails exactly when the name has no dot, with `get_type`'s error; otherwise it is "PipelineTask" exactly when the class is a `PipelineTask` subclass |
| Topics.FallbackIsTrimmed | python/lsst/sphinxutils/ext/lssttasks/_topics.py:87-88 | the fallback sentence is unchanged by `strip` |
| Topics.SummaryText | python/lsst/sphinxutils/ext/lssttasks/_topics.py:86-88 | the parsed text ends in one newline; an empty summary becomes the fallback sentence, and any other summary is trimmed |
| Topics.BlankSummaryNotReplaced | python/lsst/sphinxutils/ext/lssttasks/_topics.py:86-88 | a summary made only of blanks is not replaced by the fallback: it becomes a lone newline |
| Topics.DocstringSummaryNodes | python/lsst/sphinxutils/ext/lssttasks/_topics.py:83-89 | fails exactly for a name without a dot, with `get_type`'s error; otherwise the parsed summary text of the (possibly "Undocumented") docstring |
| Topics.SummaryNodes | python/lsst/sphinxutils/ext/lssttasks/_topics.py:76-81 | the directive's own content, when it has any, is parsed; otherwise the docstring summary is used |
| Topics.RunOutcome | python/lsst/sphinxutils/ext/lssttasks/_topics.py:40-74 | `BaseTopicDirective.run`, as written (`asWritten`) or with the corrected config override. Without an argument it raises the missing-argument error and leaves the registry alone. A success returns the one target node holding the target id. The registry is never removed. As written, a config topic always raises |
| Topics.RunWithoutArgument | python/lsst/sphinxutils/ext/lssttasks/_topics.py:48-51 | without a class name the run raises the error naming the directive, and the registry is untouched |
| Topics.RunRegisters | python/lsst/sphinxutils/ext/lssttasks/_topics.py:57-74 | a successful run returns one target whose ids hold the target id, and sets exactly that key, overwriting any earlier record. The record holds this document, line, target (refid = id), summary, class and type; every other record is kept |
| Topics.RunRecordsAt | python/lsst/sphinxutils/ext/lssttasks/_topics.py:62-74 | after a successful run the registry holds, at the target id, a record of this document whose target's refid is that id |
| Topics.RunErrorKeepsRecords | python/lsst/sphinxutils/ext/lssttasks/_topics.py:62-72 | a run that raises never adds, removes or changes a record |
| Topics.ConfigTopicAsWrittenRaises | python/lsst/sphinxutils/ext/lssttasks/_topics.py:62-72 | as written, a config topic run creates the registry if absent and then raises `NotImplementedError` |
| Topics.ConfigTopicAsWrittenNeverRecords | python/lsst/sphinxutils/ext/lssttasks/_topics.py:135-142 | as written, a config topic run always raises and never records anything |
| Topics.ConfigTopicRegisters | python/lsst/sphinxutils/ext/lssttasks/_topics.py:135-142 | with the override under its intended name, a config topic run succeeds and records the topic with type "Config" under the config id |
| Topics.RunTopicDirective | python/lsst/sphinxutils/ext/lssttasks/_topics.py:40-74 | `run` with the corrected config override (so, unlike the source, it records config topics): the new registry and the result are those of `Topics.RunOutcome` without `asWritten`, with the registry created on first use; the document name and config-field registry are unchanged |
| Protocol.LinksToRecord | python/lsst/sphinxutils/ext/lssttasks/_crossrefs.py:145-157 | a task or config reference whose id holds a record of a document targeting that id links into that document at the id, showing the display text |
| Protocol.TaskTopicRoundTrip | python/lsst/sphinxutils/ext/lssttasks/_crossrefs.py:145-157 | after a successful task or configurable topic run for `n`, the reference `n` links to the topic's document and target showing `n`, and `~n` links there showing the last component; neither warns |
| Protocol.ConfigTopicRoundTrip | python/lsst/sphinxutils/ext/lssttasks/_crossrefs.py:220-232 | with the corrected override, a config topic run for `n` is what the config reference `n` links to |
| Protocol.ConfigTopicAsWrittenUnresolved | python/lsst/sphinxutils/ext/lssttasks/_crossrefs.py:234-240 | as written, after a config topic run for a class not already registered, the config reference to it falls back to a literal and a warning |
| DoxygenTag.MemberNamesMembership | python/lsst/sphinxutils/build/_doxygentag.py:45-49 | a member name is collected exactly when some member has it and is included |
| DoxygenTag.CollectedNamesMembership | python/lsst/sphinxutils/build/_doxygentag.py:39-49 | a name is collected exactly when some compound lists it, as its own included name or as the name of an included member, whether or not the compound itself is included |
| DoxygenTag.MembersCollectedWithoutKinds | python/lsst/sphinxutils/build/_doxygentag.py:45-49 | without a kinds filter every named member is listed |
| DoxygenTag.NoKindsNoNames | python/lsst/sphinxutils/build/_doxygentag.py:43-48 | an empty kinds list lists nothing |
| DoxygenTag.NoKindsNoMemberNames | python/lsst/sphinxutils/build/_doxygentag.py:48 | an empty kinds list lists no member |
| DoxygenTag.CollectedNamesAppend | python/lsst/sphinxutils/build/_doxygentag.py:39-49 | collection over two runs of compounds is the concatenation, duplicates kept |
| DoxygenTag.GetTagEntityNames | python/lsst/sphinxutils/build/_doxygentag.py:10-51 | the result is sorted and is a permutation of the included compound and member names in document order |
| DoxygenTag.AppendMemberNames | python/lsst/sphinxutils/build/_doxygentag.py:45-49 | the inner loop appends exactly the included member names, in order |

## Left out

- **Document tree:** it is flattened to an array of inline nodes in document order. Nesting, `traverse` and `replace_self` on nested elements are not modelled. Each pending node is replaced by exactly one node, so positions are stable.
- **Host functions:** `nodes.make_id`, `builder.get_relative_uri`, `parse_content_to_nodes`, `parse_text_to_nodes`, `prepare_docstring`, `getdoc` and `issubclass(cls, PipelineTask)` are arbitrary functions held in `Docutils.Host`. The id properties are stated before slugging because `make_id` may map different texts to the same id.
- **Target `refid`:** a record's target `refid` is read as the target node's first id, which docutils' target propagation assigns; that transform is not part of this model.
- **Config-field registry:** the directives that fill `lsst_configfields` are not part of this model. The registry is an input of the resolver.
- **Imports:** importing a module and its attribute (`import_module`, `getattr`) is not modelled. `get_type` is modelled up to the name split, and an import failure after the split is not represented. The topic functions test for the dot directly and raise `GetType`'s error.
- **Logging:** debug logging is dropped. The warning `get_docstring` logs for a missing docstring is modelled in `TaskUtils.GetDocstring` but not passed on through `Topics.DocstringSummaryNodes`.
- **Argument count:** docutils' enforcement of `required_arguments` is not modelled. The run's own `IndexError` branch is.
- **Members dictionary:** `inspect.getmembers` and the member predicate are not modelled. `TaskUtils.AlphabeticalMembers` takes the resulting dictionary as a list of pairs with distinct keys.
- **XML:** the tag file's XML parsing (`ElementTree.parse`, `findall`, `findtext`) is not modelled. `DoxygenTag.GetTagEntityNames` takes the compounds and members already read.
- **Doctest example:** the example `RoleContent.parse("Tables <lsst.afw.table.Table>")` is covered only as an instance of `ExtUtils.ParseWithDisplay`, not as its own concrete lemma.
- **Sort stability:** it is not modelled; equal strings are indistinguishable, so it is irrelevant.
- CrossRefs.Resolve: its own contract states only that no pending node is left. What it computes is stated in `CrossRefs.ResolveOutcome`.

## Findings

| source | as written | input that shows it | evidently intended | confidence | as-written member | corrected member |
|---|---|---|---|---|---|---|
| python/lsst/sphinxutils/ext/lssttasks/_topics.py:138-139 | `ConfigTopicDirective` overrides `get_object`, a method the base class never calls. `run` therefore calls the base `get_type`, which raises `NotImplementedError` after the registry is created, so no config topic is ever recorded | any `lsst-config-topic` directive with a class name and a summary | override `get_type` to return "Config", so the topic is recorded under its config id and config references resolve to it | high, not executed | Topics.TopicTypeAsWritten | Topics.TopicTypeOf |

The as-written behaviour is exhibited by three lemmas:

- `Topics.ConfigTopicAsWrittenRaises`: the run raises.
- `Topics.ConfigTopicAsWrittenNeverRecords`: nothing is recorded.
- `Protocol.ConfigTopicAsWrittenUnresolved`: a later config reference falls back to a literal and a warning.

The corrected definition is used by `Topics.RunTopicDirective`. With it, `Topics.ConfigTopicRegisters` and `Protocol.ConfigTopicRoundTrip` prove that the topic is recorded and that the reference resolves.
