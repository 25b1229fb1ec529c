/**
 * The three table resolvers: `seriesAttributeResolver`,
 * `sectionAttributeResolver` and `sectionImageResolver`. The two section
 * resolvers differ only in what they compare (a section's attribute
 * dictionary, or its first image), so one generic class models both.
 * A section resolver owns a `ConflictTable`, and `textResolveDetail.choose`
 * is `ConflictTable.Choose` on it. The series attribute resolver keeps its
 * rows itself, so that a pick reaches them only through
 * `SeriesAttributeResolver.Click`, whose lookups can raise.
 */
module Resolvers {
  import opened Labels
  import opened Table
  import opened Classify
  import opened Materialize
  import opened Outcomes
  import opened Records

  /** What clicking a row does: nothing, open a resolver on the two values, or raise KeyError. */
  datatype Detail<V> = Closed | Opened(primaryItem: V, secondaryItem: V) | MissingKey(key: string)

  class SeriesAttributeResolver<V> {
    const primary: map<string, V>
    const secondary: map<string, V>
    /** The rows of the resolver's table; `Click` is the only way to change them. */
    var rows: seq<Row>
    const numConflicts: nat
    var merged: Option<map<string, V>>

    /**
     * The resolver as `serAttHandler` sets it up; `mergeSeriesAttributes`
     * decides which keys conflict and which agree (it is not part of this model).
     */
    constructor (pAtts: map<string, V>, sAtts: map<string, V>, agreed: seq<string>, conflicts: seq<string>)
      ensures primary == pAtts && secondary == sAtts && merged == None
      ensures rows == SeriesRows(conflicts, agreed)
      ensures numConflicts == |conflicts|
    {
      var loaded, n := LoadSeriesRows(conflicts, agreed);
      primary, secondary := pAtts, sAtts;
      rows := loaded;
      numConflicts := n;
      merged := None;
    }

    /** `resolveDetail`: only pink and yellow rows open, looked up by their base label. */
    method ResolveDetail(i: nat) returns (d: Detail<V>)
      requires i < |rows|
      ensures !Opens(rows[i].color) ==> d == Closed
      ensures Opens(rows[i].color) ==>
                var key := Strip(rows[i].text);
                d == if key !in primary || key !in secondary then MissingKey(key)
                     else Opened(primary[key], secondary[key])
    {
      if !Opens(rows[i].color) {
        return Closed;
      }
      var key := Strip(rows[i].text);
      if key !in primary || key !in secondary {
        return MissingKey(key);
      }
      return Opened(primary[key], secondary[key]);
    }

    /**
     * A click on row `i` followed by a pick of `side` in the chooser:
     * `resolveDetail` runs first, and only when it opens the chooser does
     * `textResolveDetail.choose` rewrite the row; otherwise the rows are left
     * as they were.
     */
    method Click(i: nat, side: Side) returns (d: Detail<V>)
      requires i < |rows|
      modifies this
      ensures d.Opened? <==> Opens(old(rows)[i].color) &&
                             Strip(old(rows)[i].text) in primary && Strip(old(rows)[i].text) in secondary
      ensures rows == SeriesApply(old(rows), Choice(i, side), primary, secondary)
      ensures merged == old(merged)
    {
      d := ResolveDetail(i);
      if d.Opened? {
        rows := rows[i := ChooseRow(rows[i], side)];
      }
    }

    /** `updateAndClose`: a KeyError leaves `merged` as it was and names the key. */
    method UpdateAndClose() returns (missing: Option<string>)
      modifies this
      ensures rows == old(rows)
      ensures var r := MergeAttributes(rows, primary, secondary);
        if r.Success? then merged == Some(r.value) && missing == None
        else merged == old(merged) && missing == Some(r.error)
    {
      var r := MaterializeAttributes(rows, primary, secondary);
      if r.Success? {
        merged := Some(r.value);
        missing := None;
      } else {
        missing := Some(r.error);
      }
    }
  }

  /**
   * One click on row `c.row` of the series attribute table. `resolveDetail`
   * looks the row's base label up in both dictionaries before the chooser
   * opens, so a key missing from either one raises KeyError and the table
   * stays as it was; otherwise the click is `Apply`.
   */
  function SeriesApply<V>(rows: seq<Row>, c: Choice, p: map<string, V>, s: map<string, V>): (r: seq<Row>)
    ensures |r| == |rows|
    ensures forall j :: 0 <= j < |rows| && j != c.row ==> r[j] == rows[j]
    ensures c.row < |rows| && (Strip(rows[c.row].text) !in p || Strip(rows[c.row].text) !in s) ==> r == rows
  {
    if c.row < |rows| && Strip(rows[c.row].text) in p && Strip(rows[c.row].text) in s then Apply(rows, c)
    else rows
  }

  function SeriesApplyAll<V>(rows: seq<Row>, cs: seq<Choice>, p: map<string, V>, s: map<string, V>): seq<Row>
    decreases |cs|
  {
    if cs == [] then rows else SeriesApply(SeriesApplyAll(rows, cs[..|cs| - 1], p, s), cs[|cs| - 1], p, s)
  }

  /** The clicks that reach a chooser: those on a row whose key both dictionaries hold. */
  function Reachable<V>(cs: seq<Choice>, keys: seq<string>, p: map<string, V>, s: map<string, V>): seq<Choice>
    decreases |cs|
  {
    if cs == [] then []
    else
      var c := cs[|cs| - 1];
      Reachable(cs[..|cs| - 1], keys, p, s) +
      (if c.row < |keys| && keys[c.row] in p && keys[c.row] in s then [c] else [])
  }

  /** Clicking through `resolveDetail` is clicking with the unreachable clicks dropped. */
  lemma {:induction false} SeriesClicksReachable<V>(rows: seq<Row>, keys: seq<string>, cs: seq<Choice>,
                                                   p: map<string, V>, s: map<string, V>)
    requires Initial(rows) && |rows| == |keys|
    requires forall i :: 0 <= i < |rows| ==> rows[i].text == keys[i]
    ensures SeriesApplyAll(rows, cs, p, s) == ApplyAll(rows, Reachable(cs, keys, p, s))
    decreases |cs|
  {
    if cs != [] {
      var init := cs[..|cs| - 1];
      var c := cs[|cs| - 1];
      var r := Reachable(init, keys, p, s);
      SeriesClicksReachable(rows, keys, init, p, s);
      var prev := ApplyAll(rows, r);
      ApplyAllKeepsLength(rows, r);
      if c.row < |rows| {
        ChoicesDecideSide(rows, r, c.row);
        assert Strip(prev[c.row].text) == keys[c.row];
      }
      if c.row < |keys| && keys[c.row] in p && keys[c.row] in s {
        assert Reachable(cs, keys, p, s) == r + [c];
        assert (r + [c])[..|r + [c]| - 1] == r;
      } else {
        assert Reachable(cs, keys, p, s) == r;
      }
    }
  }

  /** A row's last reachable click is its last click, or none when its key is missing from a side. */
  lemma {:induction false} LastReachable<V>(cs: seq<Choice>, keys: seq<string>, p: map<string, V>, s: map<string, V>, i: nat)
    requires i < |keys|
    ensures LastChoice(Reachable(cs, keys, p, s), i) ==
              if keys[i] in p && keys[i] in s then LastChoice(cs, i) else None
    decreases |cs|
  {
    if cs != [] {
      var init := cs[..|cs| - 1];
      var c := cs[|cs| - 1];
      var r := Reachable(init, keys, p, s);
      LastReachable(init, keys, p, s, i);
      assert LastChoice(cs, i) == if c.row == i then Some(c.side) else LastChoice(init, i);
      if c.row < |keys| && keys[c.row] in p && keys[c.row] in s {
        var r' := r + [c];
        assert Reachable(cs, keys, p, s) == r';
        assert r'[..|r'| - 1] == r && r'[|r'| - 1] == c;
        assert LastChoice(r', i) == if c.row == i then Some(c.side) else LastChoice(r, i);
      } else {
        assert Reachable(cs, keys, p, s) == r;
      }
    }
  }

  /**
   * The dictionary row i (key `key`) of the series attribute table reads after
   * the clicks `cs`: the secondary one only for a conflict row that could be
   * opened and whose last choice was Secondary.
   */
  function ChosenSource<V>(i: nat, key: string, numConflicts: nat, cs: seq<Choice>,
                           p: map<string, V>, s: map<string, V>): map<string, V>
  {
    if i < numConflicts && key in p && key in s && LastChoice(cs, i) == Some(Secondary) then s else p
  }

  predicate CleanKeys(keys: seq<string>)
  {
    forall i :: 0 <= i < |keys| ==> Clean(keys[i])
  }

  predicate DistinctCleanKeys(keys: seq<string>)
  {
    CleanKeys(keys) && (forall i, j :: 0 <= i < j < |keys| ==> keys[i] != keys[j])
  }

  /** The series attribute table as `serAttHandler` lays it out. */
  function SeriesRows(conflicts: seq<string>, agreed: seq<string>): (r: seq<Row>)
    ensures |r| == |conflicts| + |agreed|
  {
    KeyRows(conflicts, Pink) + KeyRows(agreed, LightGreen)
  }

  /** The series attribute table after the clicks `cs`, each made through `resolveDetail`. */
  function SeriesTable<V>(conflicts: seq<string>, agreed: seq<string>, cs: seq<Choice>,
                          p: map<string, V>, s: map<string, V>): seq<Row>
  {
    SeriesApplyAll(SeriesRows(conflicts, agreed), cs, p, s)
  }

  lemma SeriesRowsInitial(conflicts: seq<string>, agreed: seq<string>)
    requires CleanKeys(conflicts + agreed)
    ensures var rows := SeriesRows(conflicts, agreed);
      && Initial(rows) && |rows| == |conflicts + agreed|
      && (forall i :: 0 <= i < |rows| ==> rows[i].text == (conflicts + agreed)[i])
      && (forall i :: 0 <= i < |rows| ==> (rows[i].color == Pink <==> i < |conflicts|))
  {
    var keys := conflicts + agreed;
    var rows := SeriesRows(conflicts, agreed);
    assert forall i :: 0 <= i < |rows| ==> rows[i].text == keys[i];
  }

  /**
   * Each row of that table keeps its key, and takes the secondary value iff it
   * is a conflict row whose key both dictionaries hold and whose last choice
   * was Secondary; a row whose key is missing from a side is never changed.
   */
  lemma SeriesTableRows<V>(conflicts: seq<string>, agreed: seq<string>, cs: seq<Choice>,
                           p: map<string, V>, s: map<string, V>)
    requires CleanKeys(conflicts + agreed)
    ensures |SeriesTable(conflicts, agreed, cs, p, s)| == |conflicts| + |agreed|
    ensures forall i :: 0 <= i < |conflicts| + |agreed| ==>
              var text := SeriesTable(conflicts, agreed, cs, p, s)[i].text;
              && MergeKey(text) == (conflicts + agreed)[i]
              && (TakesSecondary(text) <==>
                    i < |conflicts| && (conflicts + agreed)[i] in p && (conflicts + agreed)[i] in s
                    && LastChoice(cs, i) == Some(Secondary))
    ensures forall i :: 0 <= i < |conflicts| + |agreed| ==>
              ((conflicts + agreed)[i] !in p || (conflicts + agreed)[i] !in s) ==>
              SeriesTable(conflicts, agreed, cs, p, s)[i] == SeriesRows(conflicts, agreed)[i]
  {
    var keys := conflicts + agreed;
    var rows0 := SeriesRows(conflicts, agreed);
    SeriesRowsInitial(conflicts, agreed);
    SeriesClicksReachable(rows0, keys, cs, p, s);
    var r := Reachable(cs, keys, p, s);
    var rows := ApplyAll(rows0, r);
    ApplyAllKeepsLength(rows0, r);
    forall i | 0 <= i < |rows|
      ensures MergeKey(rows[i].text) == keys[i]
      ensures TakesSecondary(rows[i].text) <==>
                i < |conflicts| && keys[i] in p && keys[i] in s && LastChoice(cs, i) == Some(Secondary)
      ensures keys[i] !in p || keys[i] !in s ==> rows[i] == rows0[i]
    {
      ChoicesDecideSide(rows0, r, i);
      ChoicesSettleRow(rows0, r, i);
      LastReachable(cs, keys, p, s, i);
      MergeKeyIsBase(rows[i].text);
    }
  }

  /** The rows of the series attribute table read the dictionaries `ChosenSource` names. */
  lemma SeriesTableSources<V>(conflicts: seq<string>, agreed: seq<string>, cs: seq<Choice>,
                              p: map<string, V>, s: map<string, V>)
    requires CleanKeys(conflicts + agreed)
    ensures var rows := SeriesTable(conflicts, agreed, cs, p, s);
      && |rows| == |conflicts + agreed|
      && (forall i :: 0 <= i < |rows| ==> MergeKey(rows[i].text) == (conflicts + agreed)[i])
      && (forall i :: 0 <= i < |rows| ==>
            SourceOf(rows[i].text, p, s) == ChosenSource(i, (conflicts + agreed)[i], |conflicts|, cs, p, s))
      && (DistinctCleanKeys(conflicts + agreed) ==> DistinctKeys(rows))
  {
    SeriesTableRows(conflicts, agreed, cs, p, s);
  }

  /**
   * The series attribute merge raises no KeyError iff every key is in the
   * primary dictionary, whatever the clicks: a row can only be switched to the
   * secondary dictionary when both hold its key.
   */
  lemma AttributesSucceedIff<V>(conflicts: seq<string>, agreed: seq<string>, cs: seq<Choice>,
                                p: map<string, V>, s: map<string, V>)
    requires CleanKeys(conflicts + agreed)
    ensures MergeAttributes(SeriesTable(conflicts, agreed, cs, p, s), p, s).Success? <==>
              forall k :: k in conflicts + agreed ==> k in p
  {
    var keys := conflicts + agreed;
    var rows := SeriesTable(conflicts, agreed, cs, p, s);
    SeriesTableSources(conflicts, agreed, cs, p, s);
    MergeSucceedsIff(rows, p, s);
    assert (forall i :: 0 <= i < |rows| ==> MergeKey(rows[i].text) in SourceOf(rows[i].text, p, s))
       <==> (forall i :: 0 <= i < |keys| ==> keys[i] in p);
  }

  /** A key that the primary dictionary lacks makes the merge fail for every click sequence. */
  lemma MissingPrimaryFails<V>(conflicts: seq<string>, agreed: seq<string>, cs: seq<Choice>,
                               p: map<string, V>, s: map<string, V>, key: string)
    requires CleanKeys(conflicts + agreed)
    requires key in conflicts + agreed && key !in p
    ensures MergeAttributes(SeriesTable(conflicts, agreed, cs, p, s), p, s).Failure?
  {
    AttributesSucceedIff(conflicts, agreed, cs, p, s);
  }

  /** A successful series attribute merge has exactly the attribute keys. */
  lemma AttributesKeys<V>(conflicts: seq<string>, agreed: seq<string>, cs: seq<Choice>,
                          p: map<string, V>, s: map<string, V>)
    requires CleanKeys(conflicts + agreed)
    requires MergeAttributes(SeriesTable(conflicts, agreed, cs, p, s), p, s).Success?
    ensures MergeAttributes(SeriesTable(conflicts, agreed, cs, p, s), p, s).value.Keys == set k | k in conflicts + agreed
  {
    var keys := conflicts + agreed;
    var rows := SeriesTable(conflicts, agreed, cs, p, s);
    SeriesTableSources(conflicts, agreed, cs, p, s);
    MergedKeys(rows, p, s);
    assert (set i | 0 <= i < |rows| :: MergeKey(rows[i].text)) == set k | k in keys by {
      forall k | k in keys
        ensures k in set i | 0 <= i < |rows| :: MergeKey(rows[i].text)
      {
        var i :| 0 <= i < |keys| && keys[i] == k;
        assert MergeKey(rows[i].text) == k;
      }
    }
  }

  /** A successful series attribute merge maps each key to the value of the side chosen for it. */
  lemma AttributesValues<V>(conflicts: seq<string>, agreed: seq<string>, cs: seq<Choice>,
                            p: map<string, V>, s: map<string, V>)
    requires DistinctCleanKeys(conflicts + agreed)
    requires MergeAttributes(SeriesTable(conflicts, agreed, cs, p, s), p, s).Success?
    ensures var keys := conflicts + agreed;
      var r := MergeAttributes(SeriesTable(conflicts, agreed, cs, p, s), p, s);
      forall i :: 0 <= i < |keys| ==>
        keys[i] in r.value && keys[i] in ChosenSource(i, keys[i], |conflicts|, cs, p, s) &&
        r.value[keys[i]] == ChosenSource(i, keys[i], |conflicts|, cs, p, s)[keys[i]]
  {
    var rows := SeriesTable(conflicts, agreed, cs, p, s);
    SeriesTableSources(conflicts, agreed, cs, p, s);
    MergedValues(rows, p, s);
  }

  /**
   * Series attributes end to end: after any clicks on the table `serAttHandler`
   * builds, each made through `resolveDetail`, the merge fails with KeyError iff
   * some key is missing from the primary dictionary; otherwise it has one entry
   * per attribute key, a conflicting key held by both sides whose last choice
   * was Secondary maps to the secondary value, and every other key (resolved to
   * Primary, never resolved, missing from the secondary, or agreed) to the
   * primary value.
   */
  lemma AttributesFollowChoices<V>(conflicts: seq<string>, agreed: seq<string>, cs: seq<Choice>,
                                   p: map<string, V>, s: map<string, V>)
    requires DistinctCleanKeys(conflicts + agreed)
    ensures var keys := conflicts + agreed;
      var r := MergeAttributes(SeriesTable(conflicts, agreed, cs, p, s), p, s);
      && (r.Success? <==> forall k :: k in keys ==> k in p)
      && (r.Success? ==> r.value.Keys == set k | k in keys)
      && (r.Success? ==> forall i :: 0 <= i < |keys| ==>
            keys[i] in ChosenSource(i, keys[i], |conflicts|, cs, p, s) &&
            r.value[keys[i]] == ChosenSource(i, keys[i], |conflicts|, cs, p, s)[keys[i]])
  {
    AttributesSucceedIff(conflicts, agreed, cs, p, s);
    if MergeAttributes(SeriesTable(conflicts, agreed, cs, p, s), p, s).Success? {
      AttributesKeys(conflicts, agreed, cs, p, s);
      AttributesValues(conflicts, agreed, cs, p, s);
    }
  }

  const OwnerScaleKeys: seq<string> := ["owner", "scale"]

  lemma OwnerScaleKeysClean()
    ensures ["owner"] + ["scale"] == OwnerScaleKeys
    ensures DistinctCleanKeys(OwnerScaleKeys)
  {
    OwnerIsClean();
    ScaleIsClean();
  }

  /**
   * One conflicting key `k1` and one agreed key `k2`, both held by both sides:
   * the merge maps `k1` to the side of its last choice and `k2` to the shared value.
   */
  lemma OneConflictOneAgreed<V>(k1: string, k2: string, a: V, b: V, c: V, cs: seq<Choice>)
    requires DistinctCleanKeys([k1, k2])
    ensures var p := map[k1 := a, k2 := c];
      var s := map[k1 := b, k2 := c];
      MergeAttributes(SeriesTable([k1], [k2], cs, p, s), p, s)
        == Success(map[k1 := (if LastChoice(cs, 0) == Some(Secondary) then b else a), k2 := c])
  {
    var p := map[k1 := a, k2 := c];
    var s := map[k1 := b, k2 := c];
    assert [k1] + [k2] == [k1, k2];
    AttributesFollowChoices([k1], [k2], cs, p, s);
    var r := MergeAttributes(SeriesTable([k1], [k2], cs, p, s), p, s);
    assert r.Success?;
    var expected := map[k1 := (if LastChoice(cs, 0) == Some(Secondary) then b else a), k2 := c];
    assert r.value.Keys == expected.Keys;
    var keys := [k1] + [k2];
    assert keys[0] == k1 && keys[1] == k2;
    assert r.value[k1] == ChosenSource(0, k1, 1, cs, p, s)[k1];
    assert r.value[k2] == ChosenSource(1, k2, 1, cs, p, s)[k2];
    assert r.value == expected;
  }

  /**
   * The scenario primary {"owner": "A", "scale": "1.0"}, secondary
   * {"owner": "B", "scale": "1.0"}, with "owner" in conflict: left unresolved,
   * the merge is the primary dictionary.
   */
  lemma OwnerScaleUnresolved()
    ensures MergeAttributes(SeriesTable(["owner"], ["scale"], [], map["owner" := "A", "scale" := "1.0"], map["owner" := "B", "scale" := "1.0"]), map["owner" := "A", "scale" := "1.0"], map["owner" := "B", "scale" := "1.0"])
            == Success(map["owner" := "A", "scale" := "1.0"])
  {
    OwnerScaleKeysClean();
    OneConflictOneAgreed("owner", "scale", "A", "B", "1.0", []);
  }

  /** The same scenario after choosing Secondary on the "owner" row: "owner" takes "B". */
  lemma OwnerScaleResolved()
    ensures MergeAttributes(SeriesTable(["owner"], ["scale"], [Choice(0, Secondary)], map["owner" := "A", "scale" := "1.0"], map["owner" := "B", "scale" := "1.0"]), map["owner" := "A", "scale" := "1.0"], map["owner" := "B", "scale" := "1.0"])
            == Success(map["owner" := "B", "scale" := "1.0"])
  {
    var cs := [Choice(0, Secondary)];
    OwnerScaleKeysClean();
    assert LastChoice(cs, 0) == Some(Secondary);
    OneConflictOneAgreed("owner", "scale", "A", "B", "1.0", cs);
  }

  lemma ScaleIsClean()
    ensures Clean("scale")
  {
    var base := "scale";
    assert forall j :: 0 <= j < |base| ==> base[j] != '(';
    NoParenIsClean(base);
  }

  /**
   * Section tables end to end: after any clicks on the table the comparison
   * loop builds, entry i of the merged list is the secondary value iff the last
   * choice made for row i was Secondary; with no clicks it is the primary list.
   */
  lemma SectionMergeFollowsChoices<V>(p: seq<V>, s: seq<V>, indices: seq<nat>, rows: seq<Row>, cs: seq<Choice>)
    requires |p| == |s| == |indices| == |rows|
    requires forall i :: 0 <= i < |p| ==>
               rows[i] == Row(SectionLabel(indices[i]), if p[i] == s[i] then LightGreen else Pink)
    ensures |ApplyAll(rows, cs)| == |rows|
    ensures forall i :: 0 <= i < |rows| ==>
              MergedList(ApplyAll(rows, cs), p, s)[i] == if LastChoice(cs, i) == Some(Secondary) then s[i] else p[i]
    ensures MergedList(ApplyAll(rows, []), p, s) == p
  {
    SectionRowsInitial(p, s, indices, rows);
    ApplyAllKeepsLength(rows, cs);
    forall i | 0 <= i < |rows|
      ensures MergedList(ApplyAll(rows, cs), p, s)[i] == if LastChoice(cs, i) == Some(Secondary) then s[i] else p[i]
    {
      ListFollowsChoices(rows, cs, p, s, i);
    }
    UntouchedListIsPrimary(rows, p, s);
  }

  /** `sectionAttributeResolver` and `sectionImageResolver`, over the compared values of each section. */
  class SectionResolver<V(==)> {
    const primary: seq<V>
    const secondary: seq<V>
    const table: ConflictTable
    const numConflicts: nat
    var merged: Option<seq<V>>

    ghost predicate Valid()
      reads this, table
    {
      |table.rows| == |primary| && |secondary| == |primary|
    }

    /**
     * `loadObjects`; a resolver exists only for series with as many sections
     * each, since otherwise the comparison loop raises (see LoadSectionRows).
     */
    constructor (p: seq<V>, s: seq<V>, indices: seq<nat>)
      requires |p| == |s| && |indices| == |p|
      ensures fresh(table) && Valid()
      ensures primary == p && secondary == s && merged == None
      ensures forall i :: 0 <= i < |p| ==>
                table.rows[i] == Row(SectionLabel(indices[i]), if p[i] == s[i] then LightGreen else Pink)
      ensures numConflicts == |ConflictsBelow(p, s, |p|)|
    {
      var r := LoadSectionRows(p, s, indices);
      primary, secondary := p, s;
      table := new ConflictTable(r.value.rows);
      numConflicts := r.value.numConflicts;
      merged := None;
    }

    /** `resolveDetail`: only pink and yellow rows open, on the two values of that row. */
    method ResolveDetail(i: nat) returns (d: Detail<V>)
      requires Valid() && i < |table.rows|
      ensures d == if Opens(table.rows[i].color) then Opened(primary[i], secondary[i]) else Closed
    {
      if Opens(table.rows[i].color) {
        d := Opened(primary[i], secondary[i]);
      } else {
        d := Closed;
      }
    }

    /** `updateAndClose`: one entry per row, in row order. */
    method UpdateAndClose()
      requires Valid()
      modifies this
      ensures Valid()
      ensures merged == Some(MergedList(table.rows, primary, secondary))
    {
      var list := MaterializeList(table.rows, primary, secondary);
      assert list == MergedList(table.rows, primary, secondary);
      merged := Some(list);
    }
  }

  /**
   * `sectionAttributeResolver.__init__`: the two lists compared are the
   * series' section output dictionaries, and the rows are labelled by the
   * primary sections' indices.
   */
  method NewSectionAttributeResolver(pSeries: Series, sSeries: Series) returns (res: SectionResolver<map<string, string>>)
    requires |pSeries.sections| == |sSeries.sections|
    ensures fresh(res) && fresh(res.table) && res.Valid() && res.merged == None
    ensures res.primary == SectionOutputs(pSeries.sections) && res.secondary == SectionOutputs(sSeries.sections)
    ensures forall i :: 0 <= i < |pSeries.sections| ==>
              res.table.rows[i] == Row(SectionLabel(pSeries.sections[i].index),
                                       if pSeries.sections[i].output == sSeries.sections[i].output then LightGreen else Pink)
  {
    res := new SectionResolver(SectionOutputs(pSeries.sections), SectionOutputs(sSeries.sections),
                               SectionIndices(pSeries.sections));
  }

  /**
   * `sectionImageResolver.__init__`: the lists compared are each section's
   * first image; a section without an image makes the list comprehension
   * raise, and then there is no resolver.
   */
  method NewSectionImageResolver(pSeries: Series, sSeries: Series) returns (res: Option<SectionResolver<Image>>)
    requires |pSeries.sections| == |sSeries.sections|
    ensures res.None? <==> FirstImages(pSeries.sections).None? || FirstImages(sSeries.sections).None?
    ensures res.Some? ==>
              && fresh(res.value) && fresh(res.value.table) && res.value.Valid() && res.value.merged == None
              && res.value.primary == FirstImages(pSeries.sections).value
              && res.value.secondary == FirstImages(sSeries.sections).value
              && forall i :: 0 <= i < |pSeries.sections| ==>
                   res.value.table.rows[i] == Row(SectionLabel(pSeries.sections[i].index),
                                                  if pSeries.sections[i].images[0] == sSeries.sections[i].images[0]
                                                  then LightGreen else Pink)
  {
    var pImages := FirstImages(pSeries.sections);
    var sImages := FirstImages(sSeries.sections);
    if pImages.None? || sImages.None? {
      return None;
    }
    var r := new SectionResolver(pImages.value, sImages.value, SectionIndices(pSeries.sections));
    return Some(r);
  }
}
