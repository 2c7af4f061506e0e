/**
 * What the dashboard's list pages (contacts, campaigns, templates, groups)
 * and the inbox share: reading a field of the advanced-filter state, the
 * "absent or equal" select filters, the date-range flag, and the ids
 * `String(list.length + 1)` that the create handlers give new rows.
 */
module ListPages {
  import opened Common
  import opened Strings
  import opened Dates
  import opened AdvancedFilter

  /** `filters[field]`: a key that is not there reads as `undefined`. */
  function Lookup(filters: FilterState, field: string): FilterValue {
    if field in filters then filters[field] else Unset
  }

  /** JavaScript truthiness of a filter value: a non-empty string, or any range object. */
  predicate Truthy(v: FilterValue) {
    match v
    case Unset => false
    case Text(s) => s != ""
    case Range(_, _) => true
  }

  /** `!filters.f || record.f === filters.f`. */
  predicate EqualityFilterPasses(v: FilterValue, value: string) {
    !Truthy(v) || v == Text(value)
  }

  /**
   * A select filter passes everything when it is unset or empty, and
   * otherwise only the records whose field equals the chosen string; a range
   * object stored under a select field equals no string and hides every record.
   */
  lemma EqualityFilterCases(v: FilterValue, value: string)
    ensures v == Unset || v == Text("") ==> EqualityFilterPasses(v, value)
    ensures v.Text? && v.text != "" ==> (EqualityFilterPasses(v, value) <==> value == v.text)
    ensures v.Range? ==> !EqualityFilterPasses(v, value)
  {
  }

  /**
   * The `matchesDate` flag: only a range with a non-empty side, applied to a
   * record whose date is present and valid, can exclude the record.
   */
  predicate DateFilterPasses(cal: Calendar, v: FilterValue, t: Option<int>) {
    v.Range? && (v.from != "" || v.to != "") && t.Some? ==> WithinRange(cal, t.value, v.from, v.to)
  }

  /**
   * The flag as the pages compute it: start true, and clear it when the date
   * lies before `from` or after the end of the `to` day.
   */
  method MatchesDate(cal: Calendar, v: FilterValue, t: Option<int>) returns (matches: bool)
    ensures matches == DateFilterPasses(cal, v, t)
  {
    matches := true;
    if v.Range? && t.Some? {
      if v.from != "" || v.to != "" {
        var date := t.value;
        if v.from != "" {
          var fromDate := cal.parse(v.from);
          if fromDate.Some? && date < fromDate.value {
            matches := false;
          }
        }
        if v.to != "" {
          var toDate := cal.parse(v.to);
          if toDate.Some? && date > cal.endOfDay(toDate.value) {
            matches := false;
          }
        }
      }
    }
  }

  /**
   * On a present date, a range filter keeps exactly the dates inside the
   * range (an empty range keeps all of them); any other filter value, and a
   * missing or invalid date, keeps the record.
   */
  lemma DateFilterCases(cal: Calendar, v: FilterValue, t: Option<int>)
    ensures v.Range? && t.Some? ==> (DateFilterPasses(cal, v, t) <==> WithinRange(cal, t.value, v.from, v.to))
    ensures !v.Range? || t.None? ==> DateFilterPasses(cal, v, t)
  {
  }

  // ---------------------------------------------------------------------
  // Row ids

  /** `rows.map(r => r.id)`: the ids of the rows, in list order. */
  function Ids<T>(rows: seq<T>, idOf: T -> string): (ids: seq<string>)
    ensures |ids| == |rows|
    ensures forall i :: 0 <= i < |rows| ==> ids[i] == idOf(rows[i])
  {
    seq(|rows|, i requires 0 <= i < |rows| => idOf(rows[i]))
  }

  /** `String(list.length + 1)` for a list of `n` rows. */
  function NextId(n: nat): (id: string)
    ensures |id| >= 1 && AllDigits(id)
  {
    NatToDecimal(n + 1)
  }

  /** Ids "1", "2", ..., "n" in list order, as every mock list starts. */
  predicate NumberedIds(ids: seq<string>) {
    forall i :: 0 <= i < |ids| ==> ids[i] == NatToDecimal(i + 1)
  }

  /** While rows are only appended, the next id keeps the numbering going. */
  lemma NumberedAppend(ids: seq<string>)
    requires NumberedIds(ids)
    ensures NumberedIds(ids + [NextId(|ids|)])
  {
  }

  /** Numbered ids are pairwise distinct. */
  lemma NumberedIdsDistinct(ids: seq<string>)
    requires NumberedIds(ids)
    ensures NoDuplicates(ids)
  {
    forall i, j | 0 <= i < j < |ids|
      ensures ids[i] != ids[j]
    {
      if ids[i] == ids[j] {
        NatToDecimalInjective(i + 1, j + 1);
      }
    }
  }

  /** On a numbered list the next id is not taken yet. */
  lemma NextIdFreshWhenNumbered(ids: seq<string>)
    requires NumberedIds(ids)
    ensures NextId(|ids|) !in ids
  {
    if NextId(|ids|) in ids {
      var i :| 0 <= i < |ids| && ids[i] == NextId(|ids|);
      NatToDecimalInjective(i + 1, |ids| + 1);
    }
  }

  /** The largest number among the all-digit ids (0 when there is none). */
  function MaxNumericId(ids: seq<string>): (m: nat)
    ensures forall i :: 0 <= i < |ids| && AllDigits(ids[i]) ==> DecimalValue(ids[i]) <= m
  {
    if ids == [] then 0
    else
      var rest := MaxNumericId(ids[..|ids| - 1]);
      var last := ids[|ids| - 1];
      var v := if AllDigits(last) then DecimalValue(last) else 0;
      assert forall i :: 0 <= i < |ids| - 1 ==> ids[i] == ids[..|ids| - 1][i];
      if v <= rest then rest else v
  }

  /** An id one above every numeric id in the list: never one of them. */
  function FreshId(ids: seq<string>): (id: string)
    ensures |id| >= 1 && AllDigits(id)
    ensures id !in ids
  {
    var m := MaxNumericId(ids);
    DecimalRoundTrip(m + 1);
    NatToDecimal(m + 1)
  }

  /** Where the list is still numbered, the fresh id is the one the pages compute. */
  lemma {:induction false} FreshIdOnNumbered(ids: seq<string>)
    requires NumberedIds(ids)
    ensures MaxNumericId(ids) == |ids|
    ensures FreshId(ids) == NextId(|ids|)
  {
    if ids != [] {
      var n := |ids|;
      assert NumberedIds(ids[..n - 1]);
      FreshIdOnNumbered(ids[..n - 1]);
      DecimalRoundTrip(n);
    }
  }
}
