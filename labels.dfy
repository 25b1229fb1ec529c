/**
 * The label protocol of a conflict-table row.
 *
 * A row's text is a base label (an attribute name, or "Section <index>"),
 * optionally followed by the suffix " (Primary)" or " (Secondary)" that
 * records the user's choice. The resolvers read the choice back out of the
 * text with Python's `in` and `str.replace`, which are modelled here as
 * `Contains` and `Remove` (replacement by the empty string, scanning left to
 * right and never overlapping, as `str.replace` does).
 */
module Labels {

  const PrimaryTag: string := " (Primary)"
  const SecondaryTag: string := " (Secondary)"
  /** The substring `updateAndClose` looks for: note it has no leading space. */
  const SecondaryMarker: string := "(Secondary)"

  datatype Side = Primary | Secondary

  function Suffix(side: Side): (r: string)
    ensures r == PrimaryTag || r == SecondaryTag
  {
    match side
    case Primary => PrimaryTag
    case Secondary => SecondaryTag
  }

  /** Python's `pat in s`. */
  predicate Contains(s: string, pat: string)
    decreases |s|
  {
    |pat| <= |s| && (s[..|pat|] == pat || (|s| > 0 && Contains(s[1..], pat)))
  }

  /** Python's `s.replace(pat, '')`. */
  function Remove(s: string, pat: string): (r: string)
    requires pat != []
    ensures |r| <= |s|
    decreases |s|
  {
    if |s| < |pat| then s
    else if s[..|pat|] == pat then Remove(s[|pat|..], pat)
    else [s[0]] + Remove(s[1..], pat)
  }

  /** The base label: `text.replace(' (Primary)','').replace(' (Secondary)','')`. */
  function Strip(text: string): (r: string)
    ensures |r| <= |text|
  {
    Remove(Remove(text, PrimaryTag), SecondaryTag)
  }

  /** The new text of a row after `textResolveDetail.choose` picks `side`. */
  function WithChoice(text: string, side: Side): string
  {
    Strip(text) + Suffix(side)
  }

  /** `'(Secondary)' in itemLabel`: the row takes the secondary value. */
  predicate TakesSecondary(text: string)
  {
    Contains(text, SecondaryMarker)
  }

  /** The dictionary key `updateAndClose` derives from a row's text. */
  function MergeKey(text: string): (r: string)
    ensures |r| <= |text|
  {
    if TakesSecondary(text) then Remove(text, SecondaryTag) else Remove(text, PrimaryTag)
  }

  /** A base label in which none of the three tags occurs. */
  predicate Clean(base: string)
  {
    !Contains(base, PrimaryTag) && !Contains(base, SecondaryTag) && !Contains(base, SecondaryMarker)
  }

  /** A row text as the tables produce it: a clean base, then at most one suffix. */
  predicate WellFormed(text: string)
  {
    var base := Strip(text);
    Clean(base) && (text == base || text == base + PrimaryTag || text == base + SecondaryTag)
  }

  // ---------------------------------------------------------------------
  // Facts about Contains and Remove

  lemma {:induction false} RemoveAbsent(s: string, pat: string)
    requires pat != [] && !Contains(s, pat)
    ensures Remove(s, pat) == s
    decreases |s|
  {
    if |s| >= |pat| {
      RemoveAbsent(s[1..], pat);
    }
  }

  /** A pattern occurs at the end of anything it is appended to. */
  lemma {:induction false} ContainsAppended(s: string, pat: string)
    ensures Contains(s + pat, pat)
    decreases |s|
  {
    if s != [] {
      assert (s + pat)[1..] == s[1..] + pat;
      ContainsAppended(s[1..], pat);
    } else {
      assert (s + pat)[..|pat|] == pat;
    }
  }

  /**
   * Appending `c` to `b` creates no occurrence of `pat` when neither part holds
   * one and `c`'s first character appears in `pat` only at its start (if at all):
   * an occurrence straddling the boundary would have to put `c[0]` at a later
   * position of `pat`.
   */
  lemma {:induction false} NoContainsAcross(b: string, c: string, pat: string)
    requires c != [] && pat != []
    requires !Contains(b, pat) && !Contains(c, pat)
    requires forall k :: 0 < k < |pat| ==> pat[k] != c[0]
    ensures !Contains(b + c, pat)
    decreases |b|
  {
    var t := b + c;
    if b == [] {
      assert t == c;
    } else {
      if |pat| <= |t| {
        if |pat| <= |b| {
          assert b[..|pat|] == t[..|pat|];
        } else {
          assert t[..|pat|][|b|] == c[0] != pat[|b|];
        }
      }
      assert t[1..] == b[1..] + c;
      NoContainsAcross(b[1..], c, pat);
    }
  }

  /** Removing a pattern that occurs only at the very end removes exactly that end. */
  lemma {:induction false} RemoveAppended(b: string, pat: string)
    requires pat != [] && !Contains(b, pat)
    requires forall k :: 0 < k < |pat| ==> pat[k] != pat[0]
    ensures Remove(b + pat, pat) == b
    decreases |b|
  {
    var t := b + pat;
    if b == [] {
      assert t[..|pat|] == pat && t[|pat|..] == [];
    } else {
      if |pat| <= |b| {
        assert b[..|pat|] == t[..|pat|];
      } else {
        assert t[..|pat|][|b|] == pat[0] != pat[|b|];
      }
      assert t[1..] == b[1..] + pat;
      if |b| >= |pat| {
        assert !Contains(b[1..], pat);
      }
      RemoveAppended(b[1..], pat);
    }
  }

  /** A string that lacks a character of the pattern cannot contain it. */
  lemma {:induction false} MissingCharNotContained(s: string, pat: string, k: nat)
    requires k < |pat|
    requires forall j :: 0 <= j < |s| ==> s[j] != pat[k]
    ensures !Contains(s, pat)
    decreases |s|
  {
    if |pat| <= |s| {
      assert s[..|pat|][k] == s[k];
      MissingCharNotContained(s[1..], pat, k);
    }
  }

  lemma TagFacts()
    ensures forall k :: 0 < k < |PrimaryTag| ==> PrimaryTag[k] != ' '
    ensures forall k :: 0 < k < |SecondaryTag| ==> SecondaryTag[k] != ' '
    ensures forall k :: 0 <= k < |SecondaryMarker| ==> SecondaryMarker[k] != ' '
    ensures PrimaryTag[0] == ' ' && SecondaryTag[0] == ' '
    ensures !Contains(SecondaryTag, PrimaryTag)
    ensures !Contains(PrimaryTag, SecondaryTag)
    ensures !Contains(PrimaryTag, SecondaryMarker)
    ensures SecondaryTag == " " + SecondaryMarker
  {
    MissingCharNotContained(SecondaryTag, PrimaryTag, 2);
  }

  // ---------------------------------------------------------------------
  // The label protocol

  /** Stripping recovers the clean base from each of the three row texts. */
  lemma StripRecoversBase(base: string)
    requires Clean(base)
    ensures Strip(base) == base
    ensures Strip(base + PrimaryTag) == base
    ensures Strip(base + SecondaryTag) == base
  {
    TagFacts();
    RemoveAbsent(base, PrimaryTag);
    RemoveAbsent(base, SecondaryTag);
    RemoveAppended(base, PrimaryTag);
    NoContainsAcross(base, SecondaryTag, PrimaryTag);
    RemoveAbsent(base + SecondaryTag, PrimaryTag);
    RemoveAppended(base, SecondaryTag);
  }

  /** A clean base label is already a well-formed row text. */
  lemma CleanIsWellFormed(base: string)
    requires Clean(base)
    ensures WellFormed(base) && Strip(base) == base
  {
    StripRecoversBase(base);
  }

  /**
   * Choosing a side yields base + suffix, keeps the base (the lookup key of the
   * row) and the label well-formed.
   */
  lemma ChooseKeepsBase(text: string, side: Side)
    requires WellFormed(text)
    ensures WithChoice(text, side) == Strip(text) + Suffix(side)
    ensures Strip(WithChoice(text, side)) == Strip(text)
    ensures WellFormed(WithChoice(text, side))
  {
    StripRecoversBase(Strip(text));
  }

  /** Choosing again replaces the suffix: the last choice wins. */
  lemma LastChoiceWins(text: string, first: Side, second: Side)
    requires WellFormed(text)
    ensures WithChoice(WithChoice(text, first), second) == WithChoice(text, second)
  {
    ChooseKeepsBase(text, first);
  }

  /** Choosing the same side twice is the same as choosing it once. */
  lemma ChooseIdempotent(text: string, side: Side)
    requires WellFormed(text)
    ensures WithChoice(WithChoice(text, side), side) == WithChoice(text, side)
  {
    LastChoiceWins(text, side, side);
  }

  /**
   * A well-formed row takes the secondary value exactly when its text ends in
   * " (Secondary)"; the untouched text and the " (Primary)" text both take the
   * primary value.
   */
  lemma TakesSecondaryIff(text: string)
    requires WellFormed(text)
    ensures TakesSecondary(text) <==> text == Strip(text) + SecondaryTag
  {
    var base := Strip(text);
    TagFacts();
    if text == base + SecondaryTag {
      assert base + SecondaryTag == (base + " ") + SecondaryMarker;
      ContainsAppended(base + " ", SecondaryMarker);
    } else if text == base + PrimaryTag {
      NoContainsAcross(base, PrimaryTag, SecondaryMarker);
    }
  }

  /** The dictionary key `updateAndClose` computes is the row's base text. */
  lemma MergeKeyIsBase(text: string)
    requires WellFormed(text)
    ensures MergeKey(text) == Strip(text)
  {
    var base := Strip(text);
    TakesSecondaryIff(text);
    TagFacts();
    StripRecoversBase(base);
    if text == base + SecondaryTag {
      RemoveAppended(base, SecondaryTag);
    } else if text == base + PrimaryTag {
      RemoveAppended(base, PrimaryTag);
    } else {
      RemoveAbsent(base, PrimaryTag);
    }
  }

  /** The row text after a choice takes the secondary value iff the choice was Secondary. */
  lemma ChoiceDecidesSide(text: string, side: Side)
    requires WellFormed(text)
    ensures TakesSecondary(WithChoice(text, side)) <==> side == Secondary
  {
    ChooseKeepsBase(text, side);
    TakesSecondaryIff(WithChoice(text, side));
  }

  /** A text without any '(' is clean (the section labels are such). */
  lemma NoParenIsClean(s: string)
    requires forall j :: 0 <= j < |s| ==> s[j] != '('
    ensures Clean(s)
  {
    MissingCharNotContained(s, PrimaryTag, 1);
    MissingCharNotContained(s, SecondaryTag, 1);
    MissingCharNotContained(s, SecondaryMarker, 0);
  }
}
