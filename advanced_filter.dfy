/**
 * The advanced-filter popover shared by the list pages. A filter state maps
 * field names to a value: `undefined` (a key that is present but cleared),
 * a string, or a date range `{from, to}`. The popover edits a draft copy and
 * hands it to its parent on "Apply"; the parent's copy is `committed`, the
 * `filters` prop the popover counts and labels.
 */
module AdvancedFilter {
  import opened Common

  datatype FilterValue = Unset | Text(text: string) | Range(from: string, to: string)

  type FilterState = map<string, FilterValue>

  datatype FilterKind = Select | TextField | Date | DateRange | Number

  /** `{ value, label }`; `label` is a reserved word here, hence `caption`. */
  datatype Choice = Choice(value: string, caption: string)

  datatype FilterOption = FilterOption(field: string, caption: string, kind: FilterKind, choices: Option<seq<Choice>>)

  /** The select's "All" entry, which clears the field. */
  const AllChoice := "__all__"

  /** A value is active when it is a non-empty string or a range with at least one non-empty side. */
  predicate IsActive(v: FilterValue) {
    match v
    case Unset => false
    case Text(s) => s != ""
    case Range(from, to) => from != "" || to != ""
  }

  function ActiveKeys(filters: FilterState): set<string> {
    set k | k in filters && IsActive(filters[k])
  }

  /** `activeFilterCount`: how many fields hold an active value. */
  function ActiveFilterCount(filters: FilterState): (n: nat)
    ensures n <= |filters.Keys|
    ensures n == 0 <==> forall k :: k in filters ==> !IsActive(filters[k])
  {
    var active := ActiveKeys(filters);
    assert active <= filters.Keys;
    SubsetCardinality(active, filters.Keys);
    NoActiveKeys(filters);
    |active|
  }

  lemma NoActiveKeys(filters: FilterState)
    ensures ActiveKeys(filters) == {} <==> forall k :: k in filters ==> !IsActive(filters[k])
  {
    if ActiveKeys(filters) == {} {
      forall k | k in filters
        ensures !IsActive(filters[k])
      {
        assert k !in ActiveKeys(filters);
      }
    }
  }

  lemma SubsetCardinality(a: set<string>, b: set<string>)
    requires a <= b
    ensures |a| <= |b|
  {
    assert b == a + (b - a);
  }

  lemma RemoveOneCardinality(a: set<string>, k: string)
    ensures |a - {k}| == if k in a then |a| - 1 else |a|
  {
    if k in a {
      assert a == (a - {k}) + {k};
    } else {
      assert a - {k} == a;
    }
  }

  /** Setting one field changes the count by that field's contribution only. */
  lemma CountAfterSet(filters: FilterState, field: string, v: FilterValue)
    ensures ActiveFilterCount(filters[field := v])
            == ActiveFilterCount(filters)
               - (if field in filters && IsActive(filters[field]) then 1 else 0)
               + (if IsActive(v) then 1 else 0)
  {
    var before := ActiveKeys(filters);
    var after := ActiveKeys(filters[field := v]);
    var rest := before - {field};
    RemoveOneCardinality(before, field);
    ActiveKeysAfterSet(filters, field, v);
    if IsActive(v) {
      assert field !in rest;
      assert |rest + {field}| == |rest| + 1;
    }
  }

  /** The active keys after setting one field: the others' as before, and that field when the new value is active. */
  lemma ActiveKeysAfterSet(filters: FilterState, field: string, v: FilterValue)
    ensures ActiveKeys(filters[field := v]) == (ActiveKeys(filters) - {field}) + (if IsActive(v) then {field} else {})
  {
    var after := ActiveKeys(filters[field := v]);
    var expected := (ActiveKeys(filters) - {field}) + (if IsActive(v) then {field} else {});
    forall k | k in after ensures k in expected {
      if k != field {
        assert filters[field := v][k] == filters[k];
      }
    }
    forall k | k in expected ensures k in after {
      if k != field {
        assert filters[field := v][k] == filters[k];
      }
    }
  }

  /** Removing one field lowers the count by one exactly when that field was active. */
  lemma CountAfterRemove(filters: FilterState, field: string)
    ensures ActiveFilterCount(filters - {field})
            == ActiveFilterCount(filters) - (if field in filters && IsActive(filters[field]) then 1 else 0)
  {
    RemoveOneCardinality(ActiveKeys(filters), field);
    assert ActiveKeys(filters - {field}) == ActiveKeys(filters) - {field};
  }

  // ---------------------------------------------------------------------
  // Labels of the active-filter badges

  /** `options.find(opt => opt.field === field)`. */
  function FindOption(options: seq<FilterOption>, field: string): (r: Option<FilterOption>)
    ensures r.Some? ==> r.value in options && r.value.field == field
    ensures r.None? ==> forall o :: o in options ==> o.field != field
  {
    if options == [] then None
    else if options[0].field == field then Some(options[0])
    else FindOption(options[1..], field)
  }

  /** `choices.find(opt => opt.value === value)`. */
  function FindChoice(choices: seq<Choice>, value: string): (r: Option<Choice>)
    ensures r.Some? ==> r.value in choices && r.value.value == value
    ensures r.None? ==> forall c :: c in choices ==> c.value != value
  {
    if choices == [] then None
    else if choices[0].value == value then Some(choices[0])
    else FindChoice(choices[1..], value)
  }

  /** `x || "..."` for one side of a range. */
  function OrEllipsis(s: string): string {
    if s == "" then "..." else s
  }

  /** `getActiveFilterLabel(field)`. */
  function ActiveFilterLabel(options: seq<FilterOption>, filters: FilterState, field: string): (r: Option<string>)
    ensures r.Some? ==> field in filters && IsActive(filters[field]) && FindOption(options, field).Some?
  {
    var option := FindOption(options, field);
    var value := if field in filters then filters[field] else Unset;
    if value == Unset || value == Text("") || option.None? then None
    else
      var opt := option.value;
      match value
      case Range(from, to) =>
        if from != "" || to != "" then Some(opt.caption + ": " + OrEllipsis(from) + " - " + OrEllipsis(to)) else None
      case Text(s) =>
        if opt.kind == Select && opt.choices.Some? then
          var choice := FindChoice(opt.choices.value, s);
          if choice.Some? && choice.value.caption != "" then Some(opt.caption + ": " + choice.value.caption) else None
        else Some(opt.caption + ": " + s)
  }

  /** For a field that is not a select with choices, a badge is shown exactly when the field is active. */
  lemma PlainLabelIffActive(options: seq<FilterOption>, filters: FilterState, field: string)
    requires FindOption(options, field).Some?
    requires FindOption(options, field).value.kind != Select || FindOption(options, field).value.choices.None?
    ensures ActiveFilterLabel(options, filters, field).Some? <==> field in filters && IsActive(filters[field])
  {
  }

  /** A select value that is none of the option's choices gets no badge. */
  lemma UnknownChoiceHasNoLabel(options: seq<FilterOption>, filters: FilterState, field: string, choices: seq<Choice>)
    requires FindOption(options, field).Some?
    requires FindOption(options, field).value.kind == Select && FindOption(options, field).value.choices == Some(choices)
    requires field in filters && filters[field].Text?
    requires forall c :: c in choices ==> c.value != filters[field].text
    ensures ActiveFilterLabel(options, filters, field) == None
  {
    assert FindChoice(choices, filters[field].text) == None;
  }

  /** Every badge label starts with the option's own label. */
  lemma LabelStartsWithOptionLabel(options: seq<FilterOption>, filters: FilterState, field: string)
    requires ActiveFilterLabel(options, filters, field).Some?
    ensures var l := FindOption(options, field).value.caption + ": ";
            var r := ActiveFilterLabel(options, filters, field).value;
            |l| <= |r| && r[..|l|] == l
  {
  }

  // ---------------------------------------------------------------------
  // The popover's state

  datatype Side = From | To

  /** The range after one side changed; an absent or non-range value starts as `{from: "", to: ""}`. */
  function RangeAfter(current: FilterValue, side: Side, value: string): (r: FilterValue)
    ensures r.Range?
    ensures side == From ==> r.from == value && r.to == (if current.Range? then current.to else "")
    ensures side == To ==> r.to == value && r.from == (if current.Range? then current.from else "")
  {
    var range := if current.Range? then current else Range("", "");
    if side == From then range.(from := value) else range.(to := value)
  }

  class FilterPanel {
    /** `localFilters`, the draft being edited. */
    var draft: FilterState
    /** The parent's filters, replaced through `onFiltersChange`. */
    var committed: FilterState
    var isOpen: bool

    constructor (filters: FilterState)
      ensures draft == filters && committed == filters && !isOpen
    {
      draft := filters;
      committed := filters;
      isOpen := false;
    }

    /** `handleFilterChange`: only the draft's `field` changes. */
    method HandleFilterChange(field: string, value: FilterValue)
      modifies this`draft
      ensures draft == old(draft)[field := value]
      ensures forall k :: k != field ==> (k in draft <==> k in old(draft)) && (k in draft ==> draft[k] == old(draft)[k])
    {
      draft := draft[field := value];
    }

    /** A select's `onValueChange`: the "All" entry stores `undefined`. */
    method SelectValueChange(field: string, chosen: string)
      modifies this`draft
      ensures draft == old(draft)[field := if chosen == AllChoice then Unset else Text(chosen)]
    {
      HandleFilterChange(field, if chosen == AllChoice then Unset else Text(chosen));
    }

    /** `handleDateRangeChange`: one side of the range changes, the other is kept. */
    method HandleDateRangeChange(field: string, side: Side, value: string)
      modifies this`draft
      ensures draft == old(draft)[field := RangeAfter(if field in old(draft) then old(draft)[field] else Unset, side, value)]
    {
      var current := if field in draft then draft[field] else Unset;
      draft := draft[field := RangeAfter(current, side, value)];
    }

    /** `handleApply`: the parent receives the draft as it is and the popover closes. */
    method HandleApply()
      modifies this`committed, this`isOpen
      ensures committed == draft && !isOpen
    {
      committed := draft;
      isOpen := false;
    }

    /** `handleClear`: draft and parent filters both become empty. */
    method HandleClear()
      modifies this`draft, this`committed
      ensures draft == map[] && committed == map[]
      ensures ActiveFilterCount(committed) == 0
    {
      draft := map[];
      committed := map[];
    }

    /** `handleRemoveFilter`: one key leaves the draft, and the whole draft is committed. */
    method HandleRemoveFilter(field: string)
      modifies this`draft, this`committed
      ensures draft == old(draft) - {field} && committed == draft
      ensures field !in draft && forall k :: k in old(draft) && k != field ==> k in draft && draft[k] == old(draft)[k]
    {
      draft := draft - {field};
      committed := draft;
    }
  }

  /**
   * Removing a badge also commits edits that were never applied: after an
   * edit of one field and the removal of another, the parent sees the edit.
   */
  method RemoveCommitsPendingEdits(filters: FilterState, edited: string, value: FilterValue, removed: string)
    returns (committed: FilterState)
    requires edited != removed
    ensures edited in committed && committed[edited] == value
    ensures removed !in committed
  {
    var panel := new FilterPanel(filters);
    panel.HandleFilterChange(edited, value);
    panel.HandleRemoveFilter(removed);
    committed := panel.committed;
  }
}
