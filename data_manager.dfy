/**
 * The in-memory data store behind the expander (src/core/data_manager.py):
 * settings plus a list of groups, each holding a list of expansions.
 * The JSON file around it is not modelled: `save()` is the bool `saveOk`
 * that each caller passes in, and the uuid4 identifiers are supplied.
 */
module DataStore {
  import opened Wrappers
  import opened Seqs
  import AppGate

  /** One trigger rule. */
  datatype Expansion = Expansion(
    id: string,
    prefix: string,
    text: string,
    description: string,
    triggerImmediate: bool,
    triggerDelayMs: int)

  datatype Group = Group(id: string, name: string, expansions: seq<Expansion>)

  /** An expansion as `get_all_expansions` hands it out: tagged with its group. */
  datatype Tagged = Tagged(exp: Expansion, groupId: string, groupName: string)

  /**
   * The settings dictionary. A key that is absent is `None`; the source only
   * ever stores these two keys.
   */
  datatype Settings = Settings(
    whitelistEnabled: Option<bool>,
    whitelistApps: Option<seq<AppGate.WhitelistEntry>>)

  /** `DEFAULT_DATA["settings"]` */
  const DefaultSettings := Settings(Some(false), Some([]))

  /** A parsed import file: either top-level key may be missing. */
  datatype ImportedData = ImportedData(settings: Option<Settings>, groups: Option<seq<Group>>)

  /** `dict.update`: every key present in `patch` overrides, every other key is kept. */
  function MergeSettings(current: Settings, patch: Settings): (r: Settings)
    ensures patch.whitelistEnabled.Some? ==> r.whitelistEnabled == patch.whitelistEnabled
    ensures patch.whitelistEnabled.None? ==> r.whitelistEnabled == current.whitelistEnabled
    ensures patch.whitelistApps.Some? ==> r.whitelistApps == patch.whitelistApps
    ensures patch.whitelistApps.None? ==> r.whitelistApps == current.whitelistApps
  {
    Settings(
      if patch.whitelistEnabled.Some? then patch.whitelistEnabled else current.whitelistEnabled,
      if patch.whitelistApps.Some? then patch.whitelistApps else current.whitelistApps)
  }

  /** Applying the same update twice is the same as applying it once. */
  lemma MergeSettingsIdempotent(current: Settings, patch: Settings)
    ensures MergeSettings(MergeSettings(current, patch), patch) == MergeSettings(current, patch)
  {
  }

  /**
   * Two updates in a row are one update by their merge, and an update with
   * no keys changes nothing.
   */
  lemma MergeSettingsCompose(current: Settings, first: Settings, second: Settings)
    ensures MergeSettings(MergeSettings(current, first), second) == MergeSettings(current, MergeSettings(first, second))
    ensures MergeSettings(current, Settings(None, None)) == current
  {
  }

  /** Index of the first group with this id. */
  function GroupIndex(groups: seq<Group>, id: string): (r: Option<nat>)
    ensures r.Some? ==> r.value < |groups| && groups[r.value].id == id
    ensures r.Some? ==> forall k :: 0 <= k < r.value ==> groups[k].id != id
    ensures r.None? <==> forall k :: 0 <= k < |groups| ==> groups[k].id != id
  {
    FirstIndex(groups, (g: Group) => g.id == id)
  }

  /** Index of the first expansion with this id. */
  function ExpansionIndex(exps: seq<Expansion>, id: string): (r: Option<nat>)
    ensures r.Some? ==> r.value < |exps| && exps[r.value].id == id
    ensures r.Some? ==> forall k :: 0 <= k < r.value ==> exps[k].id != id
    ensures r.None? <==> forall k :: 0 <= k < |exps| ==> exps[k].id != id
  {
    FirstIndex(exps, (e: Expansion) => e.id == id)
  }

  /** The group has the id and holds an expansion with the expansion id. */
  predicate Holds(g: Group, groupId: string, expansionId: string) {
    g.id == groupId && ExpansionIndex(g.expansions, expansionId).Some?
  }

  /**
   * Where `update_expansion` writes: the first group, in list order, that has
   * the group id and holds the expansion id, and the first such expansion in it.
   */
  function Locate(groups: seq<Group>, groupId: string, expansionId: string): (r: Option<(nat, nat)>)
    ensures r.Some? ==> r.value.0 < |groups| && Holds(groups[r.value.0], groupId, expansionId)
    ensures r.Some? ==> ExpansionIndex(groups[r.value.0].expansions, expansionId) == Some(r.value.1)
    ensures r.Some? ==> forall k :: 0 <= k < r.value.0 ==> !Holds(groups[k], groupId, expansionId)
    ensures r.None? <==> forall k :: 0 <= k < |groups| ==> !Holds(groups[k], groupId, expansionId)
  {
    if groups == [] then None
    else if Holds(groups[0], groupId, expansionId) then
      Some((0, ExpansionIndex(groups[0].expansions, expansionId).value))
    else
      match Locate(groups[1..], groupId, expansionId)
      case None => None
      case Some((i, j)) => Some((i + 1, j))
  }

  /** `[g for g in groups if g["id"] != group_id]` */
  function WithoutGroup(groups: seq<Group>, id: string): seq<Group> {
    if groups == [] then []
    else if groups[0].id == id then WithoutGroup(groups[1..], id)
    else [groups[0]] + WithoutGroup(groups[1..], id)
  }

  /** Deleting a group removes every group with that id and keeps every other one. */
  lemma {:induction false} WithoutGroupRemovesExactly(groups: seq<Group>, id: string)
    ensures forall g :: g in WithoutGroup(groups, id) ==> g in groups && g.id != id
    ensures forall g :: g in groups && g.id != id ==> g in WithoutGroup(groups, id)
    ensures (forall k :: 0 <= k < |groups| ==> groups[k].id != id) ==> WithoutGroup(groups, id) == groups
  {
    if groups != [] {
      WithoutGroupRemovesExactly(groups[1..], id);
      assert groups == [groups[0]] + groups[1..];
    }
  }

  /** The kept groups stay in their original order: filtering distributes over concatenation. */
  lemma {:induction false} WithoutGroupKeepsOrder(a: seq<Group>, b: seq<Group>, id: string)
    ensures WithoutGroup(a + b, id) == WithoutGroup(a, id) + WithoutGroup(b, id)
  {
    if a != [] {
      assert (a + b)[1..] == a[1..] + b;
      WithoutGroupKeepsOrder(a[1..], b, id);
    } else {
      assert a + b == b;
    }
  }

  /** `[e for e in expansions if e["id"] != expansion_id]` */
  function WithoutExpansion(exps: seq<Expansion>, id: string): (r: seq<Expansion>)
    ensures forall e :: e in r <==> e in exps && e.id != id
    ensures |r| <= |exps|
  {
    if exps == [] then []
    else if exps[0].id == id then WithoutExpansion(exps[1..], id)
    else [exps[0]] + WithoutExpansion(exps[1..], id)
  }

  /** The kept expansions stay in order with every copy: filtering distributes over concatenation. */
  lemma {:induction false} WithoutExpansionKeepsOrder(a: seq<Expansion>, b: seq<Expansion>, id: string)
    ensures WithoutExpansion(a + b, id) == WithoutExpansion(a, id) + WithoutExpansion(b, id)
  {
    if a != [] {
      assert (a + b)[1..] == a[1..] + b;
      WithoutExpansionKeepsOrder(a[1..], b, id);
    } else {
      assert a + b == b;
    }
  }

  /** On one expansion the filter drops it iff it has the id. */
  lemma WithoutExpansionSingle(e: Expansion, id: string)
    ensures WithoutExpansion([e], id) == if e.id == id then [] else [e]
  {
    assert [e][1..] == [];
  }

  /** One group's expansions, tagged with that group. */
  function TagAll(g: Group): (r: seq<Tagged>)
    ensures |r| == |g.expansions|
    ensures forall j :: 0 <= j < |r| ==> r[j] == Tagged(g.expansions[j], g.id, g.name)
  {
    seq(|g.expansions|, j requires 0 <= j < |g.expansions| => Tagged(g.expansions[j], g.id, g.name))
  }

  /** All expansions, in group order and then expansion order. */
  function Flatten(groups: seq<Group>): seq<Tagged> {
    if groups == [] then []
    else Flatten(groups[..|groups| - 1]) + TagAll(groups[|groups| - 1])
  }

  /** Total number of expansions over all groups. */
  function TotalSize(groups: seq<Group>): nat {
    if groups == [] then 0
    else TotalSize(groups[..|groups| - 1]) + |groups[|groups| - 1].expansions|
  }

  /** Flattening concatenated group lists concatenates their flattenings: group order is kept. */
  lemma {:induction false} FlattenAppend(a: seq<Group>, b: seq<Group>)
    ensures Flatten(a + b) == Flatten(a) + Flatten(b)
  {
    if b == [] {
      assert a + b == a;
    } else {
      var b' := b[..|b| - 1];
      assert (a + b)[..|a + b| - 1] == a + b';
      FlattenAppend(a, b');
    }
  }

  /**
   * The flattened list has one item per expansion; every item is an expansion
   * of some group, tagged with that group's id and name; every expansion of
   * every group appears.
   */
  lemma {:induction false} FlattenContents(groups: seq<Group>)
    ensures |Flatten(groups)| == TotalSize(groups)
    ensures forall t :: t in Flatten(groups) ==>
      exists g :: g in groups && t.exp in g.expansions && t.groupId == g.id && t.groupName == g.name
    ensures forall g, e :: g in groups && e in g.expansions ==> Tagged(e, g.id, g.name) in Flatten(groups)
  {
    if groups != [] {
      var init, last := groups[..|groups| - 1], groups[|groups| - 1];
      assert groups == init + [last];
      FlattenContents(init);
      forall t | t in Flatten(groups)
        ensures exists g :: g in groups && t.exp in g.expansions && t.groupId == g.id && t.groupName == g.name
      {
        if t in TagAll(last) {
          var j :| 0 <= j < |TagAll(last)| && TagAll(last)[j] == t;
          assert last in groups && t.exp == last.expansions[j];
        } else {
          assert t in Flatten(init);
          var g :| g in init && t.exp in g.expansions && t.groupId == g.id && t.groupName == g.name;
          assert g in groups;
        }
      }
      forall g, e | g in groups && e in g.expansions ensures Tagged(e, g.id, g.name) in Flatten(groups) {
        if g == last {
          var j :| 0 <= j < |last.expansions| && last.expansions[j] == e;
          assert TagAll(last)[j] == Tagged(e, g.id, g.name);
        } else {
          assert g in init;
        }
      }
    }
  }

  /** Two expansions that agree on everything except possibly their id. */
  predicate SameButId(a: Expansion, b: Expansion) {
    a.(id := b.id) == b
  }

  /** An imported group under fresh ids: `ids(next)` for the group, then one per expansion. */
  function Renumbered(g: Group, ids: nat -> string, next: nat): (r: Group)
    ensures r.name == g.name && |r.expansions| == |g.expansions|
    ensures forall j :: 0 <= j < |g.expansions| ==> SameButId(g.expansions[j], r.expansions[j])
    ensures r.id == ids(next)
    ensures forall j :: 0 <= j < |g.expansions| ==> r.expansions[j].id == ids(next + 1 + j)
  {
    Group(ids(next), g.name,
      seq(|g.expansions|, j requires 0 <= j < |g.expansions| => g.expansions[j].(id := ids(next + 1 + j))))
  }

  /** The imported groups whose name is not among `names`, in import order. */
  function NewGroups(imported: seq<Group>, names: set<string>): seq<Group> {
    if imported == [] then []
    else
      var init, last := imported[..|imported| - 1], imported[|imported| - 1];
      if last.name in names then NewGroups(init, names) else NewGroups(init, names) + [last]
  }

  /** Number of uuid4 calls a merge of these imported groups makes. */
  function IdsUsed(imported: seq<Group>, names: set<string>): nat {
    if imported == [] then 0
    else
      var init, last := imported[..|imported| - 1], imported[|imported| - 1];
      if last.name in names then IdsUsed(init, names) else IdsUsed(init, names) + 1 + |last.expansions|
  }

  /** What a merge import appends: every new-named group, renumbered with fresh ids. */
  function Merged(imported: seq<Group>, names: set<string>, ids: nat -> string): seq<Group> {
    if imported == [] then []
    else
      var init, last := imported[..|imported| - 1], imported[|imported| - 1];
      if last.name in names then Merged(init, names, ids)
      else Merged(init, names, ids) + [Renumbered(last, ids, IdsUsed(init, names))]
  }

  /** A group and its renumbered copy: same name, same expansions up to their ids. */
  predicate SameButIds(a: Group, b: Group) {
    a.name == b.name && |a.expansions| == |b.expansions| &&
    forall j :: 0 <= j < |a.expansions| ==> SameButId(a.expansions[j], b.expansions[j])
  }

  /** The ids a merge draws are exactly those its new-named groups need, one per group and one per expansion. */
  lemma {:induction false} IdsUsedByNewGroups(imported: seq<Group>, names: set<string>)
    ensures IdsUsed(NewGroups(imported, names), {}) == IdsUsed(imported, names)
  {
    if imported != [] {
      var init, last := imported[..|imported| - 1], imported[|imported| - 1];
      IdsUsedByNewGroups(init, names);
      if last.name !in names {
        var ng := NewGroups(init, names) + [last];
        assert ng[..|ng| - 1] == NewGroups(init, names);
      }
    }
  }

  /**
   * A merge appends exactly the imported groups whose name was not present
   * before the import, in import order, each one unchanged except for its
   * ids. Appended group `k` takes its ids from the supply positions that
   * follow those of the groups before it, so no position is drawn twice.
   */
  lemma {:induction false} MergedIsNewGroupsRenumbered(imported: seq<Group>, names: set<string>, ids: nat -> string)
    ensures |Merged(imported, names, ids)| == |NewGroups(imported, names)|
    ensures forall k :: 0 <= k < |NewGroups(imported, names)| ==>
      SameButIds(NewGroups(imported, names)[k], Merged(imported, names, ids)[k])
    ensures forall k :: 0 <= k < |NewGroups(imported, names)| ==>
      Merged(imported, names, ids)[k] ==
        Renumbered(NewGroups(imported, names)[k], ids, IdsUsed(NewGroups(imported, names)[..k], {}))
    ensures forall g :: g in NewGroups(imported, names) <==> g in imported && g.name !in names
  {
    if imported != [] {
      var init, last := imported[..|imported| - 1], imported[|imported| - 1];
      assert imported == init + [last];
      MergedIsNewGroupsRenumbered(init, names, ids);
      var ng, mg := NewGroups(imported, names), Merged(imported, names, ids);
      forall k | 0 <= k < |ng|
        ensures mg[k] == Renumbered(ng[k], ids, IdsUsed(ng[..k], {}))
      {
        if k < |NewGroups(init, names)| {
          assert ng[..k] == NewGroups(init, names)[..k];
        } else {
          assert ng[..k] == NewGroups(init, names);
          IdsUsedByNewGroups(init, names);
        }
      }
    }
  }

  class DataManager {
    var settings: Settings
    var groups: seq<Group>

    /** The default data, as `__init__` sets it up when there is no data file yet. */
    constructor ()
      ensures settings == DefaultSettings && groups == []
    {
      settings := DefaultSettings;
      groups := [];
    }

    /** `update_settings`: merges the given keys into the settings; returns what `save()` returns. */
    method UpdateSettings(patch: Settings, saveOk: bool) returns (ok: bool)
      modifies this`settings
      ensures settings == MergeSettings(old(settings), patch)
      ensures ok == saveOk
    {
      settings := MergeSettings(settings, patch);
      ok := saveOk;
    }

    /** `add_group`: appends an empty group under the fresh id and returns the id. */
    method AddGroup(name: string, freshId: string) returns (id: string)
      modifies this`groups
      ensures groups == old(groups) + [Group(freshId, name, [])]
      ensures id == freshId
    {
      groups := groups + [Group(freshId, name, [])];
      id := freshId;
    }

    /** `update_group`: renames the first group with the id; false, and nothing changes, when there is none. */
    method UpdateGroup(groupId: string, name: string, saveOk: bool) returns (ok: bool)
      modifies this`groups
      ensures match GroupIndex(old(groups), groupId)
        case None => groups == old(groups) && !ok
        case Some(i) => groups == old(groups)[i := old(groups)[i].(name := name)] && ok == saveOk
    {
      var i := 0;
      while i < |groups|
        invariant 0 <= i <= |groups| && groups == old(groups)
        invariant forall k :: 0 <= k < i ==> groups[k].id != groupId
      {
        if groups[i].id == groupId {
          groups := groups[i := groups[i].(name := name)];
          return saveOk;
        }
        i := i + 1;
      }
      return false;
    }

    /** `delete_group`: keeps the groups whose id differs; returns what `save()` returns. */
    method DeleteGroup(groupId: string, saveOk: bool) returns (ok: bool)
      modifies this`groups
      ensures groups == WithoutGroup(old(groups), groupId)
      ensures ok == saveOk
    {
      groups := WithoutGroup(groups, groupId);
      ok := saveOk;
    }

    /** `get_group`: the first group with the id, if any. */
    method GetGroup(groupId: string) returns (g: Option<Group>)
      ensures g.Some? <==> exists k :: 0 <= k < |groups| && groups[k].id == groupId
      ensures g.Some? ==> g.value.id == groupId && g == Some(groups[GroupIndex(groups, groupId).value])
    {
      var i := 0;
      while i < |groups|
        invariant 0 <= i <= |groups|
        invariant forall k :: 0 <= k < i ==> groups[k].id != groupId
      {
        if groups[i].id == groupId {
          return Some(groups[i]);
        }
        i := i + 1;
      }
      return None;
    }

    /**
     * `add_expansion`: appends the new expansion to the first group with the
     * id and returns its fresh id; returns "" and changes nothing when no group has the id.
     */
    method AddExpansion(groupId: string, prefix: string, text: string, description: string,
                        triggerImmediate: bool, triggerDelayMs: int, freshId: string)
      returns (id: string)
      modifies this`groups
      ensures match GroupIndex(old(groups), groupId)
        case None => groups == old(groups) && id == ""
        case Some(i) =>
          && groups == old(groups)[i := old(groups)[i].(expansions := old(groups)[i].expansions +
                         [Expansion(freshId, prefix, text, description, triggerImmediate, triggerDelayMs)])]
          && id == freshId
    {
      var expansion := Expansion(freshId, prefix, text, description, triggerImmediate, triggerDelayMs);
      var i := 0;
      while i < |groups|
        invariant 0 <= i <= |groups| && groups == old(groups)
        invariant forall k :: 0 <= k < i ==> groups[k].id != groupId
      {
        if groups[i].id == groupId {
          groups := groups[i := groups[i].(expansions := groups[i].expansions + [expansion])];
          return freshId;
        }
        i := i + 1;
      }
      return "";
    }

    /**
     * `update_expansion`: overwrites every field but the id of the first
     * matching expansion; false, and nothing changes, when there is none.
     */
    method UpdateExpansion(groupId: string, expansionId: string, prefix: string, text: string,
                           description: string, triggerImmediate: bool, triggerDelayMs: int,
                           saveOk: bool)
      returns (ok: bool)
      modifies this`groups
      ensures match Locate(old(groups), groupId, expansionId)
        case None => groups == old(groups) && !ok
        case Some((i, j)) =>
          && groups == old(groups)[i := old(groups)[i].(expansions := old(groups)[i].expansions[j :=
                         Expansion(expansionId, prefix, text, description, triggerImmediate, triggerDelayMs)])]
          && ok == saveOk
    {
      var i := 0;
      while i < |groups|
        invariant 0 <= i <= |groups| && groups == old(groups)
        invariant forall k :: 0 <= k < i ==> !Holds(groups[k], groupId, expansionId)
      {
        if groups[i].id == groupId {
          var exps := groups[i].expansions;
          var j := 0;
          while j < |exps|
            invariant 0 <= j <= |exps|
            invariant forall k :: 0 <= k < j ==> exps[k].id != expansionId
          {
            if exps[j].id == expansionId {
              var updated := Expansion(expansionId, prefix, text, description, triggerImmediate, triggerDelayMs);
              assert ExpansionIndex(exps, expansionId) == Some(j);
              assert Holds(groups[i], groupId, expansionId);
              assert Locate(groups, groupId, expansionId) == Some((i, j));
              groups := groups[i := groups[i].(expansions := exps[j := updated])];
              return saveOk;
            }
            j := j + 1;
          }
        }
        i := i + 1;
      }
      return false;
    }

    /**
     * `delete_expansion`: removes the expansions with the id from the first
     * group with the group id and returns what `save()` returns; false when no group has the id.
     */
    method DeleteExpansion(groupId: string, expansionId: string, saveOk: bool) returns (ok: bool)
      modifies this`groups
      ensures match GroupIndex(old(groups), groupId)
        case None => groups == old(groups) && !ok
        case Some(i) =>
          && groups == old(groups)[i := old(groups)[i].(expansions := WithoutExpansion(old(groups)[i].expansions, expansionId))]
          && ok == saveOk
    {
      var i := 0;
      while i < |groups|
        invariant 0 <= i <= |groups| && groups == old(groups)
        invariant forall k :: 0 <= k < i ==> groups[k].id != groupId
      {
        if groups[i].id == groupId {
          groups := groups[i := groups[i].(expansions := WithoutExpansion(groups[i].expansions, expansionId))];
          return saveOk;
        }
        i := i + 1;
      }
      return false;
    }

    /** `get_all_expansions`: every expansion, tagged with its group, in group order then expansion order. */
    method GetAllExpansions() returns (all: seq<Tagged>)
      ensures all == Flatten(groups)
    {
      all := [];
      var i := 0;
      while i < |groups|
        invariant 0 <= i <= |groups|
        invariant all == Flatten(groups[..i])
      {
        var group := groups[i];
        var j := 0;
        while j < |group.expansions|
          invariant 0 <= j <= |group.expansions|
          invariant all == Flatten(groups[..i]) + TagAll(group)[..j]
        {
          all := all + [Tagged(group.expansions[j], group.id, group.name)];
          j := j + 1;
        }
        assert groups[..i + 1][..i] == groups[..i];
        i := i + 1;
      }
      assert groups[..|groups|] == groups;
    }

    /**
     * `is_prefix_unique`: true iff no expansion has exactly this prefix, not
     * counting the groups with the excluded group id nor the expansions with
     * the excluded expansion id. An exclusion that is `None` or "" excludes nothing.
     */
    method IsPrefixUnique(prefix: string, excludeGroupId: Option<string>, excludeExpansionId: Option<string>)
      returns (unique: bool)
      ensures unique <==> !exists i, j :: Clashes(groups, prefix, excludeGroupId, excludeExpansionId, i, j)
    {
      var i := 0;
      while i < |groups|
        invariant 0 <= i <= |groups|
        invariant forall k, j :: 0 <= k < i ==> !Clashes(groups, prefix, excludeGroupId, excludeExpansionId, k, j)
      {
        if Excludes(excludeGroupId, groups[i].id) {
          i := i + 1;
          continue;
        }
        var exps := groups[i].expansions;
        var j := 0;
        while j < |exps|
          invariant 0 <= j <= |exps|
          invariant forall k, m :: 0 <= k < i ==> !Clashes(groups, prefix, excludeGroupId, excludeExpansionId, k, m)
          invariant forall m :: 0 <= m < j ==> !Clashes(groups, prefix, excludeGroupId, excludeExpansionId, i, m)
        {
          if exps[j].prefix == prefix {
            if Excludes(excludeExpansionId, exps[j].id) {
              j := j + 1;
              continue;
            }
            assert Clashes(groups, prefix, excludeGroupId, excludeExpansionId, i, j);
            return false;
          }
          j := j + 1;
        }
        i := i + 1;
      }
      return true;
    }

    /**
     * `import_json`. `imported` is the parsed file, `None` when it could not be
     * read or parsed (the method then returns false and changes nothing).
     * Merge appends the groups whose name is new, under fresh ids drawn from
     * `ids` in call order; replace takes the file's data, filling in a
     * missing `settings` or `groups` key.
     */
    method ImportJson(imported: Option<ImportedData>, merge: bool, ids: nat -> string, saveOk: bool)
      returns (ok: bool)
      modifies this
      ensures imported.None? ==> settings == old(settings) && groups == old(groups) && !ok
      ensures imported.Some? && merge ==>
        && settings == old(settings)
        && groups == old(groups) + Merged(imported.value.groups.GetOr([]), GroupNames(old(groups)), ids)
        && ok == saveOk
      ensures imported.Some? && !merge ==>
        && settings == imported.value.settings.GetOr(DefaultSettings)
        && groups == imported.value.groups.GetOr([])
        && ok == saveOk
    {
      if imported.None? {
        return false;
      }
      var data := imported.value;
      if merge {
        var existingNames := GroupNames(groups);
        var incoming := data.groups.GetOr([]);
        var next := 0;
        var i := 0;
        while i < |incoming|
          invariant 0 <= i <= |incoming|
          invariant settings == old(settings)
          invariant next == IdsUsed(incoming[..i], existingNames)
          invariant groups == old(groups) + Merged(incoming[..i], existingNames, ids)
        {
          assert incoming[..i + 1][..i] == incoming[..i];
          var group := incoming[i];
          if group.name !in existingNames {
            var base := next;
            var exps := [];
            var j := 0;
            while j < |group.expansions|
              invariant 0 <= j <= |group.expansions| && |exps| == j
              invariant forall k :: 0 <= k < j ==> exps[k] == group.expansions[k].(id := ids(base + 1 + k))
            {
              exps := exps + [group.expansions[j].(id := ids(base + 1 + j))];
              j := j + 1;
            }
            var renumbered := Group(ids(base), group.name, exps);
            assert renumbered == Renumbered(group, ids, base);
            groups := groups + [renumbered];
            next := next + 1 + |group.expansions|;
          }
          i := i + 1;
        }
        assert incoming[..|incoming|] == incoming;
      } else {
        settings := data.settings.GetOr(DefaultSettings);
        groups := data.groups.GetOr([]);
      }
      ok := saveOk;
    }
  }

  /** `{g["name"] for g in groups}` */
  function GroupNames(groups: seq<Group>): set<string> {
    set g | g in groups :: g.name
  }

  /** An exclusion given as `Optional[str]` applies only when truthy and equal. */
  predicate Excludes(exclude: Option<string>, id: string) {
    Truthy(exclude) && exclude.value == id
  }

  /** Expansion `j` of group `i` has the prefix and is not excluded. */
  predicate Clashes(groups: seq<Group>, prefix: string, excludeGroupId: Option<string>,
                    excludeExpansionId: Option<string>, i: int, j: int)
  {
    && 0 <= i < |groups| && 0 <= j < |groups[i].expansions|
    && !Excludes(excludeGroupId, groups[i].id)
    && groups[i].expansions[j].prefix == prefix
    && !Excludes(excludeExpansionId, groups[i].expansions[j].id)
  }
}
