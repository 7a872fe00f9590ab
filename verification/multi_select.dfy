/** The multi-select checkbox list: toggling one value, the select-all
    button, and the text shown on the closed control. */
module MultiSelect {
  import opened Seqs
  import FilterBar

  type Choice = FilterBar.Choice

  function ValueOf(c: Choice): string { c.value }
  function CaptionOf(c: Choice): string { c.caption }

  /** `handleToggle`: a selected value is removed wherever it occurs; any
      other value is appended at the end. */
  function Toggle(selected: seq<string>, value: string): (r: seq<string>)
    ensures value in r <==> value !in selected
    ensures forall x :: x != value ==> (x in r <==> x in selected)
    ensures value in selected ==> IsSubsequence(r, selected)
    ensures value !in selected ==> |r| == |selected| + 1 && r[..|selected|] == selected && r[|selected|] == value
  {
    if value in selected then Without(selected, value)
    else
      var r := selected + [value];
      assert r[..|selected|] == selected;
      r
  }

  /** Toggling a value that was not selected twice gives the list back. */
  lemma ToggleTwice(selected: seq<string>, value: string)
    requires value !in selected
    ensures Toggle(Toggle(selected, value), value) == selected
  {
    WithoutAppended(selected, value);
  }

  /** `handleSelectAll`: when as many values are selected as there are
      options, clear; otherwise select every option's value in option order.
      Only the counts are compared. */
  function SelectAll(selected: seq<string>, options: seq<Choice>): (r: seq<string>)
    ensures |selected| == |options| ==> r == []
    ensures |selected| != |options| ==> |r| == |options| && forall i :: 0 <= i < |options| ==> r[i] == options[i].value
  {
    if |selected| == |options| then [] else Map(options, ValueOf)
  }

  /** Pressing select-all twice from a partial selection ends with nothing
      selected. */
  lemma SelectAllTwice(selected: seq<string>, options: seq<Choice>)
    requires |selected| != |options|
    ensures SelectAll(SelectAll(selected, options), options) == []
  {
  }

  /** Only the counts are compared: any two selections of the same size
      lead to the same list, whichever values they hold, and the list is
      cleared exactly when the size matches the number of options (or there
      are no options). */
  lemma SelectAllComparesCounts(selected: seq<string>, other: seq<string>, options: seq<Choice>)
    requires |selected| == |other|
    ensures SelectAll(selected, options) == SelectAll(other, options)
    ensures SelectAll(selected, options) == [] <==> |selected| == |options| || options == []
  {
  }

  function IsSelected(selected: seq<string>): Choice -> bool
  {
    (c: Choice) => c.value in selected
  }

  /** `parts.join(sep)` */
  function Join(parts: seq<string>, sep: string): (r: string)
    ensures parts == [] ==> r == ""
    ensures |parts| == 1 ==> r == parts[0]
    ensures |parts| >= 2 ==> |r| >= |sep|
  {
    if parts == [] then ""
    else if |parts| == 1 then parts[0]
    else parts[0] + sep + Join(parts[1..], sep)
  }

  /** Joining one more part puts the separator between the text so far and
      the new part. */
  lemma {:induction false} JoinSnoc(parts: seq<string>, x: string, sep: string)
    requires parts != []
    ensures Join(parts + [x], sep) == Join(parts, sep) + sep + x
    decreases |parts|
  {
    if |parts| == 1 {
      assert (parts + [x])[0] == parts[0] && (parts + [x])[1..] == [x];
    } else {
      assert (parts + [x])[0] == parts[0] && (parts + [x])[1..] == parts[1..] + [x];
      JoinSnoc(parts[1..], x, sep);
    }
  }

  /** `selectedLabels`: the labels of the options whose value is selected,
      in option order, joined by a comma and a space. */
  function SelectedLabels(options: seq<Choice>, selected: seq<string>): string
  {
    Join(Map(Filter(options, IsSelected(selected)), CaptionOf), ", ")
  }

  /** One more option at the end of the list adds its label at the end of
      the text exactly when its value is selected: alone when no earlier
      option is selected, after a comma and a space otherwise. */
  lemma SelectedLabelsSnoc(options: seq<Choice>, o: Choice, selected: seq<string>)
    ensures o.value !in selected ==> SelectedLabels(options + [o], selected) == SelectedLabels(options, selected)
    ensures o.value in selected && (forall i :: 0 <= i < |options| ==> options[i].value !in selected) ==>
      SelectedLabels(options + [o], selected) == o.caption
    ensures o.value in selected && (exists i :: 0 <= i < |options| && options[i].value in selected) ==>
      SelectedLabels(options + [o], selected) == SelectedLabels(options, selected) + ", " + o.caption
  {
    var p := IsSelected(selected);
    var shown := Filter(options, p);
    FilterSnoc(options, o, p);
    if o.value in selected {
      var captions := Map(shown, CaptionOf);
      assert Map(shown + [o], CaptionOf) == captions + [o.caption];
      if exists i :: 0 <= i < |options| && options[i].value in selected {
        var i :| 0 <= i < |options| && options[i].value in selected;
        assert options[i] in shown;
        JoinSnoc(captions, o.caption, ", ");
      } else {
        if shown != [] {
          assert false;
        }
        assert captions + [o.caption] == [o.caption];
      }
    } else {
      assert !p(o) && shown + [] == shown;
    }
  }

  /** `displayText`: the labels, or the placeholder when they are empty. */
  function DisplayText(options: seq<Choice>, selected: seq<string>, placeholder: string): (r: string)
    ensures SelectedLabels(options, selected) == "" ==> r == placeholder
    ensures SelectedLabels(options, selected) != "" ==> r == SelectedLabels(options, selected)
  {
    var labels := SelectedLabels(options, selected);
    if labels != "" then labels else placeholder
  }

  /** With non-empty option labels, the placeholder shows exactly when no
      option's value is selected. */
  lemma PlaceholderIffNothingSelected(options: seq<Choice>, selected: seq<string>)
    requires forall i :: 0 <= i < |options| ==> options[i].caption != ""
    ensures SelectedLabels(options, selected) == "" <==> forall i :: 0 <= i < |options| ==> options[i].value !in selected
  {
    var shown := Filter(options, IsSelected(selected));
    var captions := Map(shown, CaptionOf);
    if shown != [] {
      assert captions[0] == shown[0].caption;
      assert shown[0] in options;
      if |captions| == 1 {
        assert Join(captions, ", ") == captions[0];
      } else {
        assert |Join(captions, ", ")| >= 2;
      }
      var k :| 0 <= k < |options| && options[k] == shown[0];
      assert options[k].value in selected;
    } else {
      assert forall i :: 0 <= i < |options| ==> options[i].value !in selected;
    }
  }
}
