/**
 * Building a resolver's table: the positional comparison of
 * `sectionAttributeResolver.loadObjects` / `sectionImageResolver.loadObjects`
 * and the row layout of `seriesAttributeResolver.serAttHandler`.
 */
module Classify {
  import opened Labels
  import opened Table
  import opened Outcomes

  /** Python's `IndexError: list index out of range`, at the index that raised it. */
  datatype LoadError = IndexError(index: nat)

  datatype Loaded = Loaded(rows: seq<Row>, numConflicts: nat)

  /** `str(n)` for a non-negative integer. */
  function DecimalText(n: nat): (r: string)
    ensures |r| >= 1
    ensures forall j :: 0 <= j < |r| ==> '0' <= r[j] <= '9'
    decreases n
  {
    var digit := [(48 + n % 10) as char];
    if n < 10 then digit else DecimalText(n / 10) + digit
  }

  /** `'Section ' + index`, the label of a section row. */
  function SectionLabel(index: nat): string
  {
    "Section " + DecimalText(index)
  }

  /** Section labels carry no tag, so the label protocol applies to them. */
  lemma SectionLabelClean(index: nat)
    ensures Clean(SectionLabel(index))
  {
    var s := SectionLabel(index);
    assert forall j :: 0 <= j < |s| ==> s[j] != '(' by {
      forall j | 0 <= j < |s|
        ensures s[j] != '('
      {
        if j >= 8 {
          assert s[j] == DecimalText(index)[j - 8];
        }
      }
    }
    NoParenIsClean(s);
  }

  /** The positions below `k` at which the two series disagree. */
  function ConflictsBelow<V(==)>(p: seq<V>, s: seq<V>, k: nat): set<nat>
    requires k <= |p| && k <= |s|
  {
    set i: nat | i < k && p[i] != s[i]
  }

  /** Comparing one more position adds one conflict exactly when that pair disagrees. */
  lemma ConflictsStep<V>(p: seq<V>, s: seq<V>, i: nat)
    requires i < |p| && i < |s|
    ensures |ConflictsBelow(p, s, i + 1)| == |ConflictsBelow(p, s, i)| + (if p[i] != s[i] then 1 else 0)
  {
    if p[i] != s[i] {
      assert ConflictsBelow(p, s, i + 1) == ConflictsBelow(p, s, i) + {i};
    } else {
      assert ConflictsBelow(p, s, i + 1) == ConflictsBelow(p, s, i);
    }
  }

  function Min(a: nat, b: nat): nat
  {
    if a <= b then a else b
  }

  /**
   * The comparison loop of a section table: row i pairs position i of the
   * primary with position i of the secondary, is green when they are equal
   * and pink otherwise; `numConflicts` counts the pink rows. The loop runs to
   * the longer length and indexes both lists, so unequal lengths raise at the
   * shorter length. `indices` are the primary sections' indices.
   */
  method LoadSectionRows<V(==)>(p: seq<V>, s: seq<V>, indices: seq<nat>) returns (r: Result<Loaded, LoadError>)
    requires |indices| == |p|
    ensures r.Failure? <==> |p| != |s|
    ensures r.Failure? ==> r.error == IndexError(Min(|p|, |s|))
    ensures r.Success? ==> |r.value.rows| == |p|
    ensures r.Success? ==> forall i :: 0 <= i < |p| ==>
              r.value.rows[i] == Row(SectionLabel(indices[i]), if p[i] == s[i] then LightGreen else Pink)
    ensures r.Success? ==> r.value.numConflicts == |ConflictsBelow(p, s, |p|)|
  {
    var n := if |p| >= |s| then |p| else |s|;
    var rows: seq<Row> := [];
    var numConflicts := 0;
    var i := 0;
    while i < n
      invariant i <= n && i <= |p| && i <= |s|
      invariant |rows| == i
      invariant forall j :: 0 <= j < i ==>
                  rows[j] == Row(SectionLabel(indices[j]), if p[j] == s[j] then LightGreen else Pink)
      invariant numConflicts == |ConflictsBelow(p, s, i)|
    {
      if i >= |p| || i >= |s| {
        return Failure(IndexError(i));
      }
      ConflictsStep(p, s, i);
      var color := LightGreen;
      if p[i] != s[i] {
        color := Pink;
        numConflicts := numConflicts + 1;
      }
      rows := rows + [Row(SectionLabel(indices[i]), color)];
      i := i + 1;
    }
    return Success(Loaded(rows, numConflicts));
  }

  /** Equal inputs give a table without a conflict. */
  lemma IdenticalSeriesNoConflicts<V>(p: seq<V>)
    ensures ConflictsBelow(p, p, |p|) == {}
  {
  }

  /** The pink rows of a loaded section table are exactly the disagreeing positions. */
  lemma PinkRowsAreConflicts<V>(p: seq<V>, s: seq<V>, rows: seq<Row>)
    requires |p| == |s| == |rows|
    requires forall i :: 0 <= i < |p| ==> rows[i].color == (if p[i] == s[i] then LightGreen else Pink)
    ensures ConflictsBelow(p, s, |p|) == set i: nat | i < |rows| && rows[i].color == Pink
    ensures forall i :: 0 <= i < |rows| && rows[i].color == LightGreen ==> p[i] == s[i]
  {
  }

  /** A loaded section table is untouched, and its green rows are exactly the agreeing pairs. */
  lemma SectionRowsInitial<V>(p: seq<V>, s: seq<V>, indices: seq<nat>, rows: seq<Row>)
    requires |p| == |s| == |indices| == |rows|
    requires forall i :: 0 <= i < |p| ==>
               rows[i] == Row(SectionLabel(indices[i]), if p[i] == s[i] then LightGreen else Pink)
    ensures Initial(rows)
    ensures forall i :: 0 <= i < |rows| ==> (rows[i].color == LightGreen <==> p[i] == s[i])
  {
    forall i | 0 <= i < |rows|
      ensures Clean(rows[i].text)
    {
      SectionLabelClean(indices[i]);
    }
  }

  /** One row per key, all of one colour. */
  function KeyRows(keys: seq<string>, color: Color): (r: seq<Row>)
    ensures |r| == |keys|
  {
    seq(|keys|, i requires 0 <= i < |keys| => Row(keys[i], color))
  }

  /**
   * `serAttHandler`: a pink row for every conflicting attribute, then a green
   * row for every agreed one; `numConflicts` counts the first group.
   */
  method LoadSeriesRows(conflicts: seq<string>, agreed: seq<string>) returns (rows: seq<Row>, numConflicts: nat)
    ensures rows == KeyRows(conflicts, Pink) + KeyRows(agreed, LightGreen)
    ensures |rows| == |conflicts| + |agreed|
    ensures numConflicts == |conflicts|
    ensures forall i :: 0 <= i < |rows| ==> (rows[i].color == Pink <==> i < numConflicts)
    ensures forall i :: 0 <= i < |conflicts| ==> rows[i] == Row(conflicts[i], Pink)
    ensures forall j :: 0 <= j < |agreed| ==> rows[|conflicts| + j] == Row(agreed[j], LightGreen)
  {
    rows := [];
    numConflicts := 0;
    for i := 0 to |conflicts|
      invariant rows == KeyRows(conflicts[..i], Pink)
      invariant numConflicts == i
    {
      rows := rows + [Row(conflicts[i], Pink)];
      numConflicts := numConflicts + 1;
    }
    assert conflicts[..|conflicts|] == conflicts;
    for j := 0 to |agreed|
      invariant rows == KeyRows(conflicts, Pink) + KeyRows(agreed[..j], LightGreen)
    {
      rows := rows + [Row(agreed[j], LightGreen)];
    }
    assert agreed[..|agreed|] == agreed;
  }
}
