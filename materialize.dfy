/**
 * `updateAndClose` of the three table resolvers: the table is read row by
 * row, and a row whose label contains "(Secondary)" takes the secondary
 * value while every other row (resolved to Primary, or never touched) takes
 * the primary value.
 */
module Materialize {
  import opened Labels
  import opened Table
  import opened Outcomes

  // ---------------------------------------------------------------------
  // Section tables: a list, one entry per row, in row order

  /** The value row i stands for. */
  function Pick<V>(text: string, primary: V, secondary: V): V
  {
    if TakesSecondary(text) then secondary else primary
  }

  /** The merged list a section table stands for. */
  function MergedList<V>(rows: seq<Row>, p: seq<V>, s: seq<V>): (r: seq<V>)
    requires |p| == |rows| && |s| == |rows|
    ensures |r| == |rows|
  {
    seq(|rows|, i requires 0 <= i < |rows| => Pick(rows[i].text, p[i], s[i]))
  }

  /** `sectionAttributeResolver.updateAndClose` / `sectionImageResolver.updateAndClose`. */
  method MaterializeList<V>(rows: seq<Row>, p: seq<V>, s: seq<V>) returns (merged: seq<V>)
    requires |p| == |rows| && |s| == |rows|
    ensures |merged| == |rows|
    ensures forall i :: 0 <= i < |rows| ==> merged[i] == (if TakesSecondary(rows[i].text) then s[i] else p[i])
  {
    merged := [];
    for row := 0 to |rows|
      invariant |merged| == row
      invariant forall i :: 0 <= i < row ==> merged[i] == Pick(rows[i].text, p[i], s[i])
    {
      if TakesSecondary(rows[row].text) {
        merged := merged + [s[row]];
      } else {
        merged := merged + [p[row]];
      }
    }
  }

  /** A table nobody has touched merges to the primary list (default to primary). */
  lemma UntouchedListIsPrimary<V>(rows: seq<Row>, p: seq<V>, s: seq<V>)
    requires Initial(rows) && |p| == |rows| && |s| == |rows|
    ensures MergedList(rows, p, s) == p
  {
    assert forall i :: 0 <= i < |rows| ==> !TakesSecondary(rows[i].text);
  }

  /** Merging a series with itself gives it back, whatever the table says. */
  lemma SelfMergeList<V>(rows: seq<Row>, p: seq<V>)
    requires |p| == |rows|
    ensures MergedList(rows, p, p) == p
  {
  }

  /**
   * After any sequence of choices on a table built by the comparison loop,
   * row i takes the secondary value exactly when the last choice made for it
   * was Secondary. Green rows cannot be chosen, but their two values agree.
   */
  lemma ListFollowsChoices<V>(rows: seq<Row>, cs: seq<Choice>, p: seq<V>, s: seq<V>, i: nat)
    requires Initial(rows) && |p| == |rows| && |s| == |rows| && i < |rows|
    requires forall j :: 0 <= j < |rows| ==> (rows[j].color == LightGreen <==> p[j] == s[j])
    ensures |ApplyAll(rows, cs)| == |rows|
    ensures MergedList(ApplyAll(rows, cs), p, s)[i] ==
              if LastChoice(cs, i) == Some(Secondary) then s[i] else p[i]
  {
    ChoicesDecideSide(rows, cs, i);
  }

  // ---------------------------------------------------------------------
  // The series attribute table: a dictionary keyed by the stripped label

  /** The dictionary a row reads its value from. */
  function SourceOf<V>(text: string, p: map<string, V>, s: map<string, V>): map<string, V>
  {
    if TakesSecondary(text) then s else p
  }

  /**
   * The loop of `seriesAttributeResolver.updateAndClose`, row by row; a key
   * missing from the dictionary read raises KeyError, here `Failure(key)`.
   */
  function MergeAttributes<V>(rows: seq<Row>, p: map<string, V>, s: map<string, V>): Result<map<string, V>, string>
    decreases |rows|
  {
    if rows == [] then Success(map[])
    else
      var prev := MergeAttributes(rows[..|rows| - 1], p, s);
      if prev.Failure? then prev
      else
        var text := rows[|rows| - 1].text;
        var key := MergeKey(text);
        var source := SourceOf(text, p, s);
        if key in source then Success(prev.value[key := source[key]]) else Failure(key)
  }

  lemma {:induction false} FailureSticks<V>(rows: seq<Row>, k: nat, p: map<string, V>, s: map<string, V>)
    requires k <= |rows| && MergeAttributes(rows[..k], p, s).Failure?
    ensures MergeAttributes(rows, p, s) == MergeAttributes(rows[..k], p, s)
    decreases |rows| - k
  {
    if k < |rows| {
      assert rows[..|rows| - 1][..k] == rows[..k];
      FailureSticks(rows[..|rows| - 1], k, p, s);
    } else {
      assert rows[..k] == rows;
    }
  }

  /** `seriesAttributeResolver.updateAndClose`. */
  method MaterializeAttributes<V>(rows: seq<Row>, p: map<string, V>, s: map<string, V>)
    returns (r: Result<map<string, V>, string>)
    ensures r == MergeAttributes(rows, p, s)
  {
    var merged: map<string, V> := map[];
    for row := 0 to |rows|
      invariant MergeAttributes(rows[..row], p, s) == Success(merged)
    {
      assert rows[..row + 1][..row] == rows[..row];
      var text := rows[row].text;
      if TakesSecondary(text) {
        var key := Remove(text, SecondaryTag);
        if key !in s {
          FailureSticks(rows, row + 1, p, s);
          return Failure(key);
        }
        merged := merged[key := s[key]];
      } else {
        var key := Remove(text, PrimaryTag);
        if key !in p {
          FailureSticks(rows, row + 1, p, s);
          return Failure(key);
        }
        merged := merged[key := p[key]];
      }
    }
    assert rows[..|rows|] == rows;
    return Success(merged);
  }

  predicate DistinctKeys(rows: seq<Row>)
  {
    forall i, j :: 0 <= i < j < |rows| ==> MergeKey(rows[i].text) != MergeKey(rows[j].text)
  }

  /** The merge succeeds iff every row finds its key in the dictionary it reads. */
  lemma {:induction false} MergeSucceedsIff<V>(rows: seq<Row>, p: map<string, V>, s: map<string, V>)
    ensures MergeAttributes(rows, p, s).Success? <==>
              forall i :: 0 <= i < |rows| ==> MergeKey(rows[i].text) in SourceOf(rows[i].text, p, s)
    decreases |rows|
  {
    if rows != [] {
      var init := rows[..|rows| - 1];
      assert forall i :: 0 <= i < |init| ==> init[i] == rows[i];
      MergeSucceedsIff(init, p, s);
    }
  }

  /** A successful merge holds exactly the rows' keys. */
  lemma {:induction false} MergedKeys<V>(rows: seq<Row>, p: map<string, V>, s: map<string, V>)
    requires MergeAttributes(rows, p, s).Success?
    ensures MergeAttributes(rows, p, s).value.Keys == set i | 0 <= i < |rows| :: MergeKey(rows[i].text)
    decreases |rows|
  {
    if rows != [] {
      var init := rows[..|rows| - 1];
      assert forall i :: 0 <= i < |init| ==> init[i] == rows[i];
      MergedKeys(init, p, s);
      assert (set i | 0 <= i < |rows| :: MergeKey(rows[i].text))
          == (set i | 0 <= i < |init| :: MergeKey(init[i].text)) + {MergeKey(rows[|rows| - 1].text)};
    }
  }

  /**
   * With one row per key, a successful merge maps each row's key to the value
   * of the side that row chose.
   */
  lemma {:induction false} MergedValues<V>(rows: seq<Row>, p: map<string, V>, s: map<string, V>)
    requires DistinctKeys(rows) && MergeAttributes(rows, p, s).Success?
    ensures forall i :: 0 <= i < |rows| ==>
              MergeKey(rows[i].text) in MergeAttributes(rows, p, s).value &&
              MergeKey(rows[i].text) in SourceOf(rows[i].text, p, s) &&
              MergeAttributes(rows, p, s).value[MergeKey(rows[i].text)] == SourceOf(rows[i].text, p, s)[MergeKey(rows[i].text)]
    decreases |rows|
  {
    if rows != [] {
      var init := rows[..|rows| - 1];
      var last := |rows| - 1;
      assert forall i :: 0 <= i < |init| ==> init[i] == rows[i];
      MergedValues(init, p, s);
      var m := MergeAttributes(init, p, s).value;
      var key := MergeKey(rows[last].text);
      assert MergeAttributes(rows, p, s).value == m[key := SourceOf(rows[last].text, p, s)[key]];
    }
  }

  /** Every row of a well-formed table is keyed by its base label. */
  lemma MergeKeysAreBases(rows: seq<Row>)
    requires forall i :: 0 <= i < |rows| ==> WellFormed(rows[i].text)
    ensures forall i :: 0 <= i < |rows| ==> MergeKey(rows[i].text) == Strip(rows[i].text)
  {
    forall i | 0 <= i < |rows|
      ensures MergeKey(rows[i].text) == Strip(rows[i].text)
    {
      MergeKeyIsBase(rows[i].text);
    }
  }
}
