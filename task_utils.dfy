/**
 * Helpers of the task-documentation extension: the docstring summary, the
 * split of an importable name, the docstring sentinel, and the alphabetical
 * ordering of a class's members.
 */
module TaskUtils {
  import opened Wrappers
  import opened Strings
  import opened StringOrder
  import opened Docutils

  // ---------------------------------------------------------------------
  // extract_docstring_summary
  // ---------------------------------------------------------------------

  /** The lines of a docstring before its first empty line. */
  function SummaryLines(docstring: seq<string>): (r: seq<string>)
    ensures |r| <= |docstring| && r == docstring[..|r|]
    ensures forall k :: 0 <= k < |r| ==> r[k] != ""
    ensures |r| < |docstring| ==> docstring[|r|] == ""
  {
    if docstring == [] || docstring[0] == "" then []
    else [docstring[0]] + SummaryLines(docstring[1..])
  }

  /** The summary sentence: the summary lines joined by single spaces. */
  function DocstringSummary(docstring: seq<string>): string
  {
    Join(SummaryLines(docstring), " ")
  }

  /** Any prefix of non-empty lines that ends at an empty line or at the end is the summary. */
  lemma {:induction false} SummaryLinesUnique(docstring: seq<string>, n: nat)
    requires n <= |docstring|
    requires forall k :: 0 <= k < n ==> docstring[k] != ""
    requires n == |docstring| || docstring[n] == ""
    ensures SummaryLines(docstring) == docstring[..n]
  {
    if n > 0 {
      SummaryLinesUnique(docstring[1..], n - 1);
      assert docstring[..n] == [docstring[0]] + docstring[1..][..n - 1];
    }
  }

  /** Lines after the first empty line never change the summary. */
  lemma {:induction false} SummaryIgnoresLaterLines(head: seq<string>, tail: seq<string>)
    requires forall k :: 0 <= k < |head| ==> head[k] != ""
    ensures SummaryLines(head + [""] + tail) == head
    ensures DocstringSummary(head + [""] + tail) == Join(head, " ")
  {
    var d := head + [""] + tail;
    assert d[|head|] == "";
    assert d[..|head|] == head;
    forall k | 0 <= k < |head| ensures d[k] != "" {
      assert d[k] == head[k];
    }
    SummaryLinesUnique(d, |head|);
  }

  /**
   * `extract_docstring_summary`: collects lines until the first empty one,
   * then joins them with single spaces.
   */
  method ExtractDocstringSummary(docstring: seq<string>) returns (summary: string)
    ensures summary == Join(SummaryLines(docstring), " ")
    ensures docstring == [] || docstring[0] == "" ==> summary == ""
    ensures (forall k :: 0 <= k < |docstring| ==> docstring[k] != "") ==> summary == Join(docstring, " ")
  {
    var summaryLines: seq<string> := [];
    var i := 0;
    while i < |docstring|
      invariant 0 <= i <= |docstring|
      invariant summaryLines == docstring[..i]
      invariant forall k :: 0 <= k < i ==> docstring[k] != ""
    {
      if docstring[i] == "" {
        break;
      }
      summaryLines := summaryLines + [docstring[i]];
      i := i + 1;
    }
    SummaryLinesUnique(docstring, i);
    assert docstring[..|docstring|] == docstring;
    summary := Join(summaryLines, " ");
  }

  // ---------------------------------------------------------------------
  // get_type and get_docstring
  // ---------------------------------------------------------------------

  const NotQualifiedPrefix := "Type must be fully-qualified, of the form ``module.MyClass``. Got: "

  /** The error `get_type` raises for a name it cannot split. */
  function NotQualifiedError(typeName: string): Error
  {
    SphinxError(NotQualifiedPrefix + typeName)
  }

  /**
   * The name split `get_type` performs before importing: the module name
   * (all dotted parts but the last) and the attribute name (the last part);
   * a name without a dot is refused with a `SphinxError`.
   */
  function GetType(typeName: string): (r: Result<(string, string), Error>)
    ensures r.Err? <==> '.' !in typeName
    ensures r.Err? ==> r.error == NotQualifiedError(typeName)
    ensures r.Ok? ==> r.value.0 + "." + r.value.1 == typeName && '.' !in r.value.1
  {
    var parts := Split(typeName, '.');
    if |parts| < 2 then
      Err(NotQualifiedError(typeName))
    else
      var n := |parts|;
      assert parts == parts[..n - 1] + [parts[n - 1]];
      JoinSnoc(parts[..n - 1], parts[n - 1], ".");
      Ok((Join(parts[..n - 1], "."), parts[n - 1]))
  }

  /** The lines `get_docstring` returns and the warnings it logs. */
  datatype Docstring = Docstring(lines: seq<string>, warnings: seq<string>)

  /**
   * `get_docstring`: the prepared lines of the object's docstring; a missing
   * docstring is replaced by "Undocumented" and logged once. The logged text
   * is approximate: Python formats the class object itself, and the model
   * names it by its dotted name.
   */
  function GetDocstring(docstring: Option<string>, objName: string, prepare: string -> seq<string>): (r: Docstring)
    ensures docstring.None? ==> r.lines == prepare("Undocumented") && |r.warnings| == 1
    ensures docstring.Some? ==> r.lines == prepare(docstring.value) && r.warnings == []
  {
    if docstring.None? then
      Docstring(prepare("Undocumented"), ["Object " + objName + " doesn't have a docstring."])
    else
      Docstring(prepare(docstring.value), [])
  }

  // ---------------------------------------------------------------------
  // _get_alphabetical_members
  // ---------------------------------------------------------------------

  /** A Python dictionary, as its items in insertion order: no key appears twice. */
  predicate IsDict<V>(items: seq<(string, V)>)
  {
    forall i, j :: 0 <= i < j < |items| ==> items[i].0 != items[j].0
  }

  predicate Distinct(s: seq<string>)
  {
    forall i, j :: 0 <= i < j < |s| ==> s[i] != s[j]
  }

  function KeysOf<V>(items: seq<(string, V)>): (keys: seq<string>)
    ensures |keys| == |items|
    ensures forall i :: 0 <= i < |items| ==> keys[i] == items[i].0
  {
    seq(|items|, i requires 0 <= i < |items| => items[i].0)
  }

  /** `items[key]`. */
  function Lookup<V>(items: seq<(string, V)>, key: string): V
    requires key in KeysOf(items)
  {
    if items[0].0 == key then items[0].1
    else
      assert KeysOf(items) == [items[0].0] + KeysOf(items[1..]);
      Lookup(items[1..], key)
  }

  lemma {:induction false} LookupAt<V>(items: seq<(string, V)>, i: nat)
    requires IsDict(items) && i < |items|
    ensures items[i].0 in KeysOf(items)
    ensures Lookup(items, items[i].0) == items[i].1
  {
    assert KeysOf(items)[i] == items[i].0;
    if i > 0 {
      assert KeysOf(items) == [items[0].0] + KeysOf(items[1..]);
      LookupAt(items[1..], i - 1);
    }
  }

  lemma {:induction false} DistinctCount(s: seq<string>, x: string)
    requires Distinct(s)
    ensures multiset(s)[x] <= 1
  {
    if s != [] {
      assert s == [s[0]] + s[1..];
      DistinctCount(s[1..], x);
      if s[0] == x {
        assert x !in s[1..];
      }
    }
  }

  /** A list with the same elements as a list without repeats has no repeats. */
  lemma DistinctPermutation(a: seq<string>, b: seq<string>)
    requires Distinct(a) && multiset(a) == multiset(b)
    ensures Distinct(b)
  {
    forall i, j | 0 <= i < j < |b| ensures b[i] != b[j] {
      if b[i] == b[j] {
        assert b == b[..j] + [b[j]] + b[j + 1..];
        assert b[i] in multiset(b[..j]);
        assert multiset(b)[b[i]] >= 2;
        DistinctCount(a, b[i]);
      }
    }
  }

  /** Pairing each key of a reordering of the keys with its value gives back the same pairs. */
  lemma PairsOfReorderedKeys<V>(fields: seq<(string, V)>, keys: seq<string>, members: seq<(string, V)>)
    requires IsDict(fields)
    requires multiset(keys) == multiset(KeysOf(fields))
    requires |members| == |keys|
    requires forall i :: 0 <= i < |keys| ==> keys[i] in KeysOf(fields) && members[i] == (keys[i], Lookup(fields, keys[i]))
    ensures forall p :: p in members <==> p in fields
  {
    forall p | p in fields ensures p in members {
      var j :| 0 <= j < |fields| && fields[j] == p;
      LookupAt(fields, j);
      assert KeysOf(fields)[j] in multiset(keys);
      var i :| 0 <= i < |keys| && keys[i] == p.0;
      assert members[i] == p;
    }
    forall p | p in members ensures p in fields {
      var i :| 0 <= i < |members| && members[i] == p;
      assert keys[i] in multiset(KeysOf(fields));
      var j :| 0 <= j < |fields| && KeysOf(fields)[j] == keys[i];
      LookupAt(fields, j);
    }
  }

  /**
   * `_get_alphabetical_members`, given the dictionary `inspect.getmembers`
   * produced: the same key/value pairs, reordered by ascending key.
   */
  method AlphabeticalMembers<V>(fields: seq<(string, V)>) returns (members: seq<(string, V)>)
    requires IsDict(fields)
    ensures |members| == |fields|
    ensures forall p :: p in members <==> p in fields
    ensures forall i, j :: 0 <= i < j < |members| ==> Le(members[i].0, members[j].0) && members[i].0 != members[j].0
  {
    var keys := Sort(KeysOf(fields));
    DistinctPermutation(KeysOf(fields), keys);
    forall i | 0 <= i < |keys| ensures keys[i] in KeysOf(fields) {
      assert keys[i] in multiset(keys);
    }
    members := seq(|keys|, i requires 0 <= i < |keys| => (keys[i], Lookup(fields, keys[i])));
    PairsOfReorderedKeys(fields, keys, members);
  }
}
