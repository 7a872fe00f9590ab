/** The description filter: a search box whose matches (ignoring case,
    sorted) are offered as checkboxes, and the checkboxes that add a
    description to, or remove it from, the selection. */
module DescriptionFilter {
  import opened Seqs
  import Text
  import StringOrder

  /** `d.toLowerCase().includes(term)` */
  predicate Mentions(d: string, term: string)
  {
    Text.Contains(Text.Lower(d), term)
  }

  function ContainsTerm(term: string): string -> bool
  {
    (d: string) => Mentions(d, term)
  }

  /** The descriptions containing `term` once lower-cased, in order. */
  function Containing(descriptions: seq<string>, term: string): (r: seq<string>)
    ensures forall i :: 0 <= i < |r| ==> r[i] in descriptions && Mentions(r[i], term)
    ensures forall i :: 0 <= i < |descriptions| && Mentions(descriptions[i], term) ==>
      descriptions[i] in r
  {
    var r := Filter(descriptions, ContainsTerm(term));
    assert forall i :: 0 <= i < |r| ==> ContainsTerm(term)(r[i]);
    r
  }

  /** `filteredDescriptions`: nothing for a blank search; otherwise the
      descriptions containing the search ignoring case, sorted. The search is
      not trimmed for the match itself. */
  function Matches(descriptions: seq<string>, search: string): (r: seq<string>)
    ensures Text.IsBlank(search) ==> r == []
    ensures !Text.IsBlank(search) ==>
      StringOrder.Sorted(r) && multiset(r) == multiset(Containing(descriptions, Text.Lower(search)))
    ensures forall i :: 0 <= i < |r| ==> r[i] in descriptions && Mentions(r[i], Text.Lower(search))
    ensures !Text.IsBlank(search) ==>
      forall i :: 0 <= i < |descriptions| && Mentions(descriptions[i], Text.Lower(search)) ==>
        descriptions[i] in r
  {
    Text.TrimEmptyIffBlank(search);
    if Text.Trim(search) == "" then []
    else
      var kept := Containing(descriptions, Text.Lower(search));
      var r := StringOrder.Sort(kept);
      StringOrder.SameElements(r, kept);
      forall i | 0 <= i < |r| ensures r[i] in descriptions && Mentions(r[i], Text.Lower(search)) {
        assert r[i] in kept;
        var j :| 0 <= j < |kept| && kept[j] == r[i];
      }
      r
  }

  /** Case in the search does not matter. */
  lemma MatchesIgnoresCase(descriptions: seq<string>, a: string, b: string)
    requires Text.Lower(a) == Text.Lower(b)
    requires !Text.IsBlank(a) && !Text.IsBlank(b)
    ensures multiset(Matches(descriptions, a)) == multiset(Matches(descriptions, b))
  {
  }

  /** `handleCheckboxChange`: checking appends the description (again, if it
      was already there); unchecking removes every copy. */
  function CheckboxChange(selected: seq<string>, description: string, checked: bool): (r: seq<string>)
    ensures checked ==> |r| == |selected| + 1 && r[..|selected|] == selected && r[|selected|] == description
    ensures !checked ==> description !in r && IsSubsequence(r, selected)
    ensures !checked ==> forall x :: x != description ==> (x in r <==> x in selected)
  {
    if checked then
      var r := selected + [description];
      assert r[..|selected|] == selected;
      r
    else Without(selected, description)
  }

  /** Unchecking right after checking is unchecking alone: every copy goes,
      the one just added included. */
  lemma CheckThenUncheck(selected: seq<string>, description: string)
    ensures CheckboxChange(CheckboxChange(selected, description, true), description, false)
      == CheckboxChange(selected, description, false)
  {
    WithoutSnoc(selected, description);
  }
}
