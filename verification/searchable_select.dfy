/** The searchable select: options narrowed by a case-insensitive search of
    their labels, the option shown for the current value, the offer to add
    the search text as a new value, and what picking or adding does. */
module SearchableSelect {
  import opened Wrappers
  import opened Seqs
  import Text
  import FilterBar

  type Choice = FilterBar.Choice

  /** The control's state: the current value, the search box and whether
      the list is open. */
  datatype Select = Select(value: string, search: string, open: bool)

  function LabelContains(term: string): Choice -> bool
  {
    (c: Choice) => Text.Contains(Text.Lower(c.caption), term)
  }

  /** `filteredOptions`: the options whose label contains the search
      ignoring case, in order. */
  function FilteredOptions(options: seq<Choice>, search: string): (r: seq<Choice>)
    ensures IsSubsequence(r, options)
    ensures forall i :: 0 <= i < |r| ==> Text.Contains(Text.Lower(r[i].caption), Text.Lower(search))
    ensures forall i :: 0 <= i < |options| && Text.Contains(Text.Lower(options[i].caption), Text.Lower(search)) ==>
      options[i] in r
  {
    Filter(options, LabelContains(Text.Lower(search)))
  }

  /** An empty search keeps every option. */
  lemma EmptySearchKeepsAll(options: seq<Choice>)
    ensures FilteredOptions(options, "") == options
  {
    forall i | 0 <= i < |options| ensures LabelContains(Text.Lower(""))(options[i]) {
      Text.ContainsEmpty(Text.Lower(options[i].caption));
    }
    FilterAll(options, LabelContains(Text.Lower("")));
  }

  function HasValue(value: string): Choice -> bool
  {
    (c: Choice) => c.value == value
  }

  /** `selectedOption`: the first option carrying the current value. */
  function SelectedOption(options: seq<Choice>, value: string): (r: Option<Choice>)
    ensures r.None? <==> forall i :: 0 <= i < |options| ==> options[i].value != value
    ensures r.Some? ==> r.value.value == value && r.value in options
    ensures r.Some? ==>
      exists k :: 0 <= k < |options| && options[k] == r.value && forall j :: 0 <= j < k ==> options[j].value != value
  {
    var r := Find(options, HasValue(value));
    var k := FindIndex(options, HasValue(value));
    assert forall j :: 0 <= j < k ==> !HasValue(value)(options[j]);
    r
  }

  /** Some narrowed option has exactly the search as its label, ignoring
      case. */
  predicate LabelTaken(options: seq<Choice>, search: string)
  {
    exists i :: 0 <= i < |options| && Text.Lower(options[i].caption) == Text.Lower(search)
  }

  /** `showAddNew`: adding is allowed, the search is not blank, and no
      narrowed option's label equals the search ignoring case. */
  predicate ShowAddNew(allowAddNew: bool, options: seq<Choice>, search: string)
  {
    allowAddNew && !Text.IsBlank(search) && !LabelTaken(FilteredOptions(options, search), search)
  }

  /** A string contains itself. */
  lemma ContainsSelf(s: string)
    ensures Text.Contains(s, s)
  {
    assert s[..|s|] == s;
  }

  /** Narrowing first makes no difference to the offer: a label equal to the
      search ignoring case always survives the narrowing. */
  lemma ShowAddNewOverAllOptions(allowAddNew: bool, options: seq<Choice>, search: string)
    ensures ShowAddNew(allowAddNew, options, search) <==>
      allowAddNew && !Text.IsBlank(search) && !LabelTaken(options, search)
  {
    if LabelTaken(options, search) {
      var i :| 0 <= i < |options| && Text.Lower(options[i].caption) == Text.Lower(search);
      ContainsSelf(Text.Lower(search));
      var narrowed := FilteredOptions(options, search);
      assert options[i] in narrowed;
      var j :| 0 <= j < |narrowed| && narrowed[j] == options[i];
      assert Text.Lower(narrowed[j].caption) == Text.Lower(search);
    }
    if LabelTaken(FilteredOptions(options, search), search) {
      var narrowed := FilteredOptions(options, search);
      var j :| 0 <= j < |narrowed| && Text.Lower(narrowed[j].caption) == Text.Lower(search);
      assert narrowed[j] in options;
      var i :| 0 <= i < |options| && options[i] == narrowed[j];
    }
  }

  /** Picking an option: its value becomes the value, the search empties and
      the list closes. */
  function Pick(s: Select, option: Choice): (r: Select)
    ensures r == Select(option.value, "", false)
  {
    Select(option.value, "", false)
  }

  /** After picking an option, the control shows an option with that value. */
  lemma PickedIsShown(options: seq<Choice>, s: Select, i: int)
    requires 0 <= i < |options|
    ensures SelectedOption(options, Pick(s, options[i]).value).Some?
    ensures SelectedOption(options, Pick(s, options[i]).value).value.value == options[i].value
  {
  }

  /** What pressing the add-new button did: the control afterwards, the text
      handed to `onAddNew` (when there is one) and the value handed to
      `onChange`. */
  datatype Added = Added(select: Select, addedNew: Option<string>, changedTo: string)

  /** The add-new button: `onAddNew` first, if given, then `onChange`, both
      with the trimmed search; then the search empties and the list closes. */
  function AddNew(s: Select, hasOnAddNew: bool): (r: Added)
    ensures r.changedTo == Text.Trim(s.search)
    ensures r.addedNew.Some? <==> hasOnAddNew
    ensures r.addedNew.Some? ==> r.addedNew.value == r.changedTo
    ensures r.select == Select(Text.Trim(s.search), "", false)
  {
    var v := Text.Trim(s.search);
    Added(Select(v, "", false), if hasOnAddNew then Some(v) else None, v)
  }

  /** The button is only offered for a search that trims to a non-empty
      value, so what it adds is never empty. */
  lemma AddedValueNotEmpty(allowAddNew: bool, options: seq<Choice>, s: Select, hasOnAddNew: bool)
    requires ShowAddNew(allowAddNew, options, s.search)
    ensures AddNew(s, hasOnAddNew).changedTo != ""
  {
    Text.TrimEmptyIffBlank(s.search);
  }
}
