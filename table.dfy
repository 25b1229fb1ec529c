/**
 * The rows of a resolver's conflict table and `textResolveDetail.choose`.
 *
 * Each row is one cell of a one-column QTableWidget: its text (see Labels)
 * and its background colour, kept here only as an abstract state: light
 * green for a pair that agrees, pink for an unresolved conflict and yellow
 * for a conflict the user has resolved.
 */
module Table {
  import opened Labels
  import opened Outcomes

  datatype Color = LightGreen | Pink | Yellow

  datatype Row = Row(text: string, color: Color)

  /** `QColor(name).name()` of the colour each state is painted with. */
  function ColorName(c: Color): string
  {
    match c
    case LightGreen => "#90ee90"
    case Pink => "#ffc0cb"
    case Yellow => "#ffff00"
  }

  /**
   * The gate of `resolveDetail` as written: the colour name must be one of
   * '#ffc0cb' (pink) or '#ffff66'. The latter is not the name of the yellow
   * that `choose` paints ('#ffff00').
   */
  predicate OpensAsWritten(c: Color)
    ensures OpensAsWritten(c) <==> c == Pink
  {
    ColorName(c) in ["#ffc0cb", "#ffff66"]
  }

  /** The gate as intended: pink and yellow rows open a resolver, green rows never. */
  predicate Opens(c: Color)
  {
    c == Pink || c == Yellow
  }

  /** `textResolveDetail.choose` on one row: new suffix, painted yellow. */
  function ChooseRow(r: Row, side: Side): (r': Row)
    ensures r'.color == Yellow && Opens(r'.color) && !OpensAsWritten(r'.color)
  {
    Row(WithChoice(r.text, side), Yellow)
  }

  /**
   * With the gate as written a row the user has resolved can never be opened
   * again, so its first choice cannot be changed.
   */
  lemma ResolvedRowLockedAsWritten(r: Row, side: Side)
    ensures OpensAsWritten(Pink)
    ensures !OpensAsWritten(ChooseRow(r, side).color)
    ensures Opens(ChooseRow(r, side).color)
  {
  }

  /** A clean label resolved to Secondary reads base + " (Secondary)" and is locked. */
  lemma ChosenSecondaryLocked(base: string)
    requires Clean(base)
    ensures ChooseRow(Row(base, Pink), Secondary).text == base + SecondaryTag
    ensures !OpensAsWritten(ChooseRow(Row(base, Pink), Secondary).color)
  {
    StripRecoversBase(base);
    ResolvedRowLockedAsWritten(Row(base, Pink), Secondary);
  }

  /** The concrete case: a conflict on "owner" resolved to Secondary is locked. */
  lemma OwnerLockedAsWritten()
    ensures ChooseRow(Row("owner", Pink), Secondary).text == "owner (Secondary)"
    ensures !OpensAsWritten(ChooseRow(Row("owner", Pink), Secondary).color)
  {
    OwnerIsClean();
    ChosenSecondaryLocked("owner");
  }

  lemma OwnerIsClean()
    ensures Clean("owner")
  {
    var base := "owner";
    assert forall j :: 0 <= j < |base| ==> base[j] != '(';
    NoParenIsClean(base);
  }

  /** A click of the user: pick `side` in the resolver of row `row`. */
  datatype Choice = Choice(row: nat, side: Side)

  /** One click: a row that does not open a resolver is left alone. */
  function Apply(rows: seq<Row>, c: Choice): (r: seq<Row>)
    ensures |r| == |rows|
    ensures forall j :: 0 <= j < |rows| && j != c.row ==> r[j] == rows[j]
    ensures c.row < |rows| && !Opens(rows[c.row].color) ==> r == rows
  {
    if c.row < |rows| && Opens(rows[c.row].color) then rows[c.row := ChooseRow(rows[c.row], c.side)]
    else rows
  }

  function ApplyAll(rows: seq<Row>, cs: seq<Choice>): seq<Row>
    decreases |cs|
  {
    if cs == [] then rows else Apply(ApplyAll(rows, cs[..|cs| - 1]), cs[|cs| - 1])
  }

  lemma {:induction false} ApplyAllKeepsLength(rows: seq<Row>, cs: seq<Choice>)
    ensures |ApplyAll(rows, cs)| == |rows|
    decreases |cs|
  {
    if cs != [] {
      ApplyAllKeepsLength(rows, cs[..|cs| - 1]);
    }
  }

  /** The side of the last click on row `i`, if any. */
  function LastChoice(cs: seq<Choice>, i: nat): Option<Side>
    decreases |cs|
  {
    if cs == [] then None
    else if cs[|cs| - 1].row == i then Some(cs[|cs| - 1].side)
    else LastChoice(cs[..|cs| - 1], i)
  }

  /** A table as the resolvers build it: clean base labels, nothing chosen yet. */
  predicate Initial(rows: seq<Row>)
  {
    forall i :: 0 <= i < |rows| ==> Clean(rows[i].text) && rows[i].color != Yellow
  }

  /**
   * After any sequence of clicks, a pink row carries the suffix of the last
   * choice made for it and is yellow; a green row is untouched; the base
   * label of every row is unchanged.
   */
  lemma {:induction false} ChoicesSettleRow(rows: seq<Row>, cs: seq<Choice>, i: nat)
    requires Initial(rows) && i < |rows|
    ensures |ApplyAll(rows, cs)| == |rows|
    ensures var r := ApplyAll(rows, cs)[i];
      if rows[i].color == Pink && LastChoice(cs, i).Some? then
        r == Row(rows[i].text + Suffix(LastChoice(cs, i).value), Yellow)
      else
        r == rows[i]
    decreases |cs|
  {
    if cs != [] {
      var prev := ApplyAll(rows, cs[..|cs| - 1]);
      var c := cs[|cs| - 1];
      ChoicesSettleRow(rows, cs[..|cs| - 1], i);
      if c.row == i && Opens(prev[i].color) {
        var base := rows[i].text;
        StripRecoversBase(base);
        assert Strip(prev[i].text) == base;
      }
      assert |Apply(prev, c)| == |prev|;
    }
  }

  /** A row whose label is chosen takes the secondary value iff the last choice was Secondary. */
  lemma ChoicesDecideSide(rows: seq<Row>, cs: seq<Choice>, i: nat)
    requires Initial(rows) && i < |rows|
    ensures |ApplyAll(rows, cs)| == |rows|
    ensures WellFormed(ApplyAll(rows, cs)[i].text)
    ensures Strip(ApplyAll(rows, cs)[i].text) == rows[i].text
    ensures TakesSecondary(ApplyAll(rows, cs)[i].text) <==>
              rows[i].color == Pink && LastChoice(cs, i) == Some(Secondary)
  {
    ChoicesSettleRow(rows, cs, i);
    var base := rows[i].text;
    StripRecoversBase(base);
    CleanIsWellFormed(base);
    TakesSecondaryIff(ApplyAll(rows, cs)[i].text);
  }

  /** The resolution table of one resolver window. */
  class ConflictTable {
    var rows: seq<Row>

    constructor (initial: seq<Row>)
      ensures rows == initial
    {
      rows := initial;
    }

    /** `textResolveDetail.choose` for the row the resolver window was opened on. */
    method Choose(i: nat, side: Side)
      requires i < |rows| && Opens(rows[i].color)
      modifies this
      ensures rows == Apply(old(rows), Choice(i, side))
      ensures |rows| == |old(rows)|
      ensures rows[i] == Row(Strip(old(rows)[i].text) + Suffix(side), Yellow)
      ensures forall j :: 0 <= j < |rows| && j != i ==> rows[j] == old(rows)[j]
    {
      var base := Strip(rows[i].text);
      rows := rows[i := Row(base + Suffix(side), Yellow)];
    }
  }
}
