/** The advanced filter bar: the five filter fields and their neutral values
    (`'all'` for category and type, empty dates, no descriptions), whether
    any filter is active, the option lists of the two selects, and the apply
    and reset buttons. */
module FilterBar {
  import Text

  /** The sentinel meaning "no restriction" for category and type. */
  const All := "all"

  datatype FilterState = FilterState(
    fromDate: string,
    toDate: string,
    category: string,
    description: seq<string>,
    expenseType: string)

  /** The filters when the page opens and after a reset. */
  const DefaultFilters := FilterState("", "", All, [], All)

  /** `hasActiveFilters`: some date bound is set, a category or type other
      than the sentinel is chosen, or some description is ticked. */
  predicate HasActiveFilters(f: FilterState)
  {
    f.fromDate != "" || f.toDate != "" || f.category != All || |f.description| > 0 || f.expenseType != All
  }

  /** A filter is active exactly when the state differs from the defaults. */
  lemma ActiveIffNotDefault(f: FilterState)
    ensures HasActiveFilters(f) <==> f != DefaultFilters
  {
  }

  /** An entry of a select: the value stored and the label shown. */
  datatype Choice = Choice(value: string, caption: string)

  /** The category select: the sentinel first, then each category as both
      value and label, in the given order. */
  function CategoryOptions(categories: seq<string>): (r: seq<Choice>)
    ensures |r| == |categories| + 1
    ensures r[0] == Choice(All, "All Categories")
    ensures forall i :: 0 <= i < |categories| ==> r[i + 1] == Choice(categories[i], categories[i])
  {
    [Choice(All, "All Categories")] + SameLabel(categories)
  }

  function SameLabel(values: seq<string>): (r: seq<Choice>)
    ensures |r| == |values|
    ensures forall i :: 0 <= i < |values| ==> r[i] == Choice(values[i], values[i])
  {
    if values == [] then [] else [Choice(values[0], values[0])] + SameLabel(values[1..])
  }

  /** The type select: the sentinel first, then each type with its raw value
      and its first character upper-cased in the label. */
  function TypeOptions(types: seq<string>): (r: seq<Choice>)
    ensures |r| == |types| + 1
    ensures r[0] == Choice(All, "All Types")
    ensures forall i :: 0 <= i < |types| ==> r[i + 1].value == types[i]
  {
    [Choice(All, "All Types")] + CapitalizedLabels(types)
  }

  function CapitalizedLabels(values: seq<string>): (r: seq<Choice>)
    ensures |r| == |values|
    ensures forall i :: 0 <= i < |values| ==> r[i] == Choice(values[i], Text.Capitalize(values[i]))
  {
    if values == [] then [] else [Choice(values[0], Text.Capitalize(values[0]))] + CapitalizedLabels(values[1..])
  }

  /** A type's label differs from its value only in the case of its first
      character: both lower-case to the same text, and from the second
      character on they are equal. */
  lemma TypeLabelsMatchValues(types: seq<string>, i: int)
    requires 0 <= i < |types|
    ensures Text.Lower(TypeOptions(types)[i + 1].caption) == Text.Lower(types[i])
    ensures |TypeOptions(types)[i + 1].caption| == |types[i]|
    ensures types[i] != [] ==> TypeOptions(types)[i + 1].caption[1..] == types[i][1..]
  {
    Text.LowerCapitalize(types[i]);
  }

  /** The bar: the filters being edited and whether the panel is open. */
  datatype Bar = Bar(filters: FilterState, expanded: bool)

  /** `handleApply`: the edited filters are handed to the page unchanged and
      the panel closes. */
  function Apply(b: Bar): (r: (Bar, FilterState))
    ensures r.1 == b.filters && r.0.filters == b.filters && !r.0.expanded
  {
    (Bar(b.filters, false), b.filters)
  }

  /** `handleReset` together with the page's reset: both the bar and the
      page return to the defaults, and the panel closes. */
  function Reset(b: Bar): (r: (Bar, FilterState))
    ensures !HasActiveFilters(r.1) && !HasActiveFilters(r.0.filters) && !r.0.expanded
  {
    (Bar(DefaultFilters, false), DefaultFilters)
  }
}
