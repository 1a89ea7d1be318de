/**
 * The API names listed in a Doxygen tag file, over compounds and members
 * already read from the XML.
 */
module DoxygenTag {
  import opened Wrappers
  import opened StringOrder

  /** A `member` element: its `kind` attribute and the text of its `name` child, either possibly absent. */
  datatype Member = Member(kind: Option<string>, name: Option<string>)

  /** A `compound` element with its `member` children in document order. */
  datatype Compound = Compound(kind: Option<string>, name: Option<string>, members: seq<Member>)

  /**
   * Whether an element's name is listed: the name is present and non-empty,
   * and either no kinds were asked for or the element's kind is one of them.
   */
  predicate Included(kind: Option<string>, name: Option<string>, kinds: Option<seq<string>>)
  {
    name.Some? && name.value != "" && (kinds.None? || (kind.Some? && kind.value in kinds.value))
  }

  /** The listed names of some members, in document order. */
  function MemberNames(members: seq<Member>, kinds: Option<seq<string>>): seq<string>
  {
    if members == [] then []
    else
      var m := members[|members| - 1];
      MemberNames(members[..|members| - 1], kinds) + (if Included(m.kind, m.name, kinds) then [m.name.value] else [])
  }

  /** The names one compound contributes: its own, then its members'. */
  function CompoundNames(c: Compound, kinds: Option<seq<string>>): seq<string>
  {
    (if Included(c.kind, c.name, kinds) then [c.name.value] else []) + MemberNames(c.members, kinds)
  }

  /** The names collected before sorting, in document order. */
  function CollectedNames(compounds: seq<Compound>, kinds: Option<seq<string>>): seq<string>
  {
    if compounds == [] then []
    else
      CollectedNames(compounds[..|compounds| - 1], kinds) + CompoundNames(compounds[|compounds| - 1], kinds)
  }

  /** A member name is collected exactly when some member has it and is included. */
  lemma {:induction false} MemberNamesMembership(members: seq<Member>, kinds: Option<seq<string>>, x: string)
    ensures x in MemberNames(members, kinds) <==>
      exists j :: 0 <= j < |members| && Included(members[j].kind, members[j].name, kinds) && members[j].name.value == x
  {
    if members != [] {
      var init := members[..|members| - 1];
      MemberNamesMembership(init, kinds, x);
      if exists j :: 0 <= j < |init| && Included(init[j].kind, init[j].name, kinds) && init[j].name.value == x {
        var j :| 0 <= j < |init| && Included(init[j].kind, init[j].name, kinds) && init[j].name.value == x;
        assert members[j] == init[j];
      }
      if exists j :: 0 <= j < |members| && Included(members[j].kind, members[j].name, kinds) && members[j].name.value == x {
        var j :| 0 <= j < |members| && Included(members[j].kind, members[j].name, kinds) && members[j].name.value == x;
        if j < |init| {
          assert init[j] == members[j];
        }
      }
    }
  }

  /** Whether one compound lists `x`: as its own included name or as an included member's name. */
  predicate ListsName(c: Compound, kinds: Option<seq<string>>, x: string)
  {
    (Included(c.kind, c.name, kinds) && c.name.value == x) || x in MemberNames(c.members, kinds)
  }

  /**
   * A name is collected exactly when some compound lists it, either as its
   * own included name or as the name of an included member; a member counts
   * whether or not its compound is included.
   */
  lemma {:induction false} CollectedNamesMembership(compounds: seq<Compound>, kinds: Option<seq<string>>, x: string)
    ensures x in CollectedNames(compounds, kinds) <==>
      exists i :: 0 <= i < |compounds| && ListsName(compounds[i], kinds, x)
  {
    if compounds != [] {
      var n := |compounds| - 1;
      var init := compounds[..n];
      var c := compounds[n];
      CollectedNamesMembership(init, kinds, x);
      assert CollectedNames(compounds, kinds) == CollectedNames(init, kinds) + CompoundNames(c, kinds);
      assert x in CompoundNames(c, kinds) <==> ListsName(c, kinds, x);
      if x in CollectedNames(compounds, kinds) {
        if x in CollectedNames(init, kinds) {
          var i :| 0 <= i < n && ListsName(init[i], kinds, x);
          assert compounds[i] == init[i];
        } else {
          assert ListsName(compounds[n], kinds, x);
        }
      }
      if exists i :: 0 <= i < |compounds| && ListsName(compounds[i], kinds, x) {
        var i :| 0 <= i < |compounds| && ListsName(compounds[i], kinds, x);
        if i < n {
          assert ListsName(init[i], kinds, x);
        }
      }
    }
  }

  /** Every member name is collected when kinds are not restricted, whatever its compound. */
  lemma MembersCollectedWithoutKinds(compounds: seq<Compound>, i: nat, j: nat)
    requires i < |compounds| && j < |compounds[i].members|
    requires var m := compounds[i].members[j]; m.name.Some? && m.name.value != ""
    ensures compounds[i].members[j].name.value in CollectedNames(compounds, None)
  {
    var x := compounds[i].members[j].name.value;
    MemberNamesMembership(compounds[i].members, None, x);
    assert ListsName(compounds[i], None, x);
    CollectedNamesMembership(compounds, None, x);
  }

  /** Asking for no kinds lists nothing. */
  lemma {:induction false} NoKindsNoNames(compounds: seq<Compound>)
    ensures CollectedNames(compounds, Some([])) == []
  {
    if compounds != [] {
      NoKindsNoNames(compounds[..|compounds| - 1]);
      NoKindsNoMemberNames(compounds[|compounds| - 1].members);
    }
  }

  lemma {:induction false} NoKindsNoMemberNames(members: seq<Member>)
    ensures MemberNames(members, Some([])) == []
  {
    if members != [] {
      NoKindsNoMemberNames(members[..|members| - 1]);
    }
  }

  /** Collecting from two runs of compounds is collecting from each in turn: duplicates are kept. */
  lemma {:induction false} CollectedNamesAppend(a: seq<Compound>, b: seq<Compound>, kinds: Option<seq<string>>)
    ensures CollectedNames(a + b, kinds) == CollectedNames(a, kinds) + CollectedNames(b, kinds)
  {
    if b != [] {
      var n := |b| - 1;
      assert (a + b)[..|a + b| - 1] == a + b[..n];
      CollectedNamesAppend(a, b[..n], kinds);
    } else {
      assert a + b == a;
    }
  }

  /** Taking one more member into the prefix adds that member's name when it is included. */
  lemma MemberNamesStep(members: seq<Member>, j: nat, kinds: Option<seq<string>>)
    requires j < |members|
    ensures var m := members[j];
      MemberNames(members[..j + 1], kinds)
        == MemberNames(members[..j], kinds) + (if Included(m.kind, m.name, kinds) then [m.name.value] else [])
  {
    assert members[..j + 1][..j] == members[..j];
  }

  /** Taking one more compound into the prefix adds that compound's names. */
  lemma CollectedNamesStep(compounds: seq<Compound>, i: nat, kinds: Option<seq<string>>)
    requires i < |compounds|
    ensures CollectedNames(compounds[..i + 1], kinds) == CollectedNames(compounds[..i], kinds) + CompoundNames(compounds[i], kinds)
  {
    assert compounds[..i + 1][..i] == compounds[..i];
  }

  /**
   * `get_tag_entity_names` after the XML is read: walks the compounds and
   * their members, keeping the included names, then sorts them.
   */
  method GetTagEntityNames(compounds: seq<Compound>, kinds: Option<seq<string>>) returns (names: seq<string>)
    ensures Sorted(names)
    ensures multiset(names) == multiset(CollectedNames(compounds, kinds))
  {
    names := [];
    for i := 0 to |compounds|
      invariant names == CollectedNames(compounds[..i], kinds)
    {
      var compound := compounds[i];
      CollectedNamesStep(compounds, i, kinds);
      if Included(compound.kind, compound.name, kinds) {
        names := names + [compound.name.value];
      }
      names := AppendMemberNames(names, compound.members, kinds);
    }
    assert compounds[..|compounds|] == compounds;
    names := Sort(names);
  }

  /** The inner loop of `get_tag_entity_names`: appends the included names of one compound's members. */
  method AppendMemberNames(names: seq<string>, members: seq<Member>, kinds: Option<seq<string>>) returns (r: seq<string>)
    ensures r == names + MemberNames(members, kinds)
  {
    r := names;
    for j := 0 to |members|
      invariant r == names + MemberNames(members[..j], kinds)
    {
      var member := members[j];
      MemberNamesStep(members, j, kinds);
      if Included(member.kind, member.name, kinds) {
        r := r + [member.name.value];
      }
    }
    assert members[..|members|] == members;
  }
}
