/**
 * The campaigns page: a searchable, filterable list of broadcast campaigns
 * and a "create campaign" modal whose form also carries a throttle and a
 * retry count. The page state is the campaign list, the form and the
 * modal's open flag.
 */
module CampaignsPage {
  import opened Common
  import opened Strings
  import opened Dates
  import opened AdvancedFilter
  import opened ListPages

  datatype Campaign = Campaign(
    id: string,
    name: string,
    template: string,
    group: string,
    schedule: string,
    status: string,
    sent: nat,
    total: nat)

  datatype CampaignForm = CampaignForm(
    name: string,
    template: string,
    group: string,
    schedule: string,
    throttle: string,
    retries: string)

  /** The form's initial and reset value. */
  const DefaultForm := CampaignForm("", "", "", "", "100", "3")

  /** The schedule shown for a campaign created without a date. */
  const Immediate := "Immediate"

  datatype Page = Page(campaigns: seq<Campaign>, form: CampaignForm, createOpen: bool)

  function IdOf(c: Campaign): string {
    c.id
  }

  // ---------------------------------------------------------------------
  // The list filter

  /** The search looks at the name, the template and the group, ignoring case. */
  predicate SearchPasses(c: Campaign, query: string) {
    ContainsIgnoringCase(c.name, query) || ContainsIgnoringCase(c.template, query) || ContainsIgnoringCase(c.group, query)
  }

  /** The schedule date is `new Date(schedule)`; an unparsable schedule is never excluded. */
  predicate CampaignMatches(cal: Calendar, c: Campaign, query: string, filters: FilterState) {
    && SearchPasses(c, query)
    && EqualityFilterPasses(Lookup(filters, "status"), c.status)
    && EqualityFilterPasses(Lookup(filters, "template"), c.template)
    && EqualityFilterPasses(Lookup(filters, "group"), c.group)
    && DateFilterPasses(cal, Lookup(filters, "schedule"), cal.parse(c.schedule))
  }

  /** The filter callback as written, with the flag `matchesSchedule`. */
  method MatchCampaign(cal: Calendar, c: Campaign, query: string, filters: FilterState) returns (ok: bool)
    ensures ok == CampaignMatches(cal, c, query, filters)
  {
    var matchesSearch := ContainsIgnoringCase(c.name, query) || ContainsIgnoringCase(c.template, query)
                         || ContainsIgnoringCase(c.group, query);
    var status := Lookup(filters, "status");
    var matchesStatus := !Truthy(status) || status == Text(c.status);
    var template := Lookup(filters, "template");
    var matchesTemplate := !Truthy(template) || template == Text(c.template);
    var group := Lookup(filters, "group");
    var matchesGroup := !Truthy(group) || group == Text(c.group);
    var matchesSchedule := MatchesDate(cal, Lookup(filters, "schedule"), cal.parse(c.schedule));
    ok := matchesSearch && matchesStatus && matchesTemplate && matchesGroup && matchesSchedule;
  }

  function FilteredCampaigns(cal: Calendar, campaigns: seq<Campaign>, query: string, filters: FilterState): (r: seq<Campaign>)
    ensures |r| <= |campaigns|
    ensures forall c :: c in r <==> c in campaigns && CampaignMatches(cal, c, query, filters)
  {
    Filter(campaigns, (c: Campaign) => CampaignMatches(cal, c, query, filters))
  }

  /** An empty search with no advanced filter lists every campaign. */
  lemma NoFiltersListsAll(cal: Calendar, campaigns: seq<Campaign>)
    ensures FilteredCampaigns(cal, campaigns, "", map[]) == campaigns
  {
    forall c | c in campaigns
      ensures CampaignMatches(cal, c, "", map[])
    {
      EmptyQueryMatches(c.name);
    }
    FilterKeepsAll(campaigns, (c: Campaign) => CampaignMatches(cal, c, "", map[]));
  }

  /**
   * A campaign whose schedule does not parse as a date (such as "Immediate")
   * is never hidden by the schedule range, whatever the range.
   */
  lemma UnparsableScheduleIgnoresRange(cal: Calendar, c: Campaign, query: string, filters: FilterState, v: FilterValue)
    requires cal.parse(c.schedule).None?
    ensures CampaignMatches(cal, c, query, filters["schedule" := v])
            == CampaignMatches(cal, c, query, filters - {"schedule"})
  {
    assert Lookup(filters["schedule" := v], "status") == Lookup(filters - {"schedule"}, "status");
    assert Lookup(filters["schedule" := v], "template") == Lookup(filters - {"schedule"}, "template");
    assert Lookup(filters["schedule" := v], "group") == Lookup(filters - {"schedule"}, "group");
  }

  // ---------------------------------------------------------------------
  // Creating a campaign

  /**
   * `handleCreate`: with a name, a template and a group, append a campaign
   * with nothing sent, reset the form and close the modal; otherwise change
   * nothing.
   */
  function HandleCreate(page: Page): (r: Page)
    ensures page.form.name == "" || page.form.template == "" || page.form.group == "" ==> r == page
    ensures page.form.name != "" && page.form.template != "" && page.form.group != "" ==>
              && |r.campaigns| == |page.campaigns| + 1
              && r.campaigns[..|page.campaigns|] == page.campaigns
              && r.form == DefaultForm && !r.createOpen
  {
    var f := page.form;
    if f.name != "" && f.template != "" && f.group != "" then
      var created := Campaign(
        NextId(|page.campaigns|), f.name, f.template, f.group,
        if f.schedule != "" then f.schedule else Immediate,
        if f.schedule != "" then "Scheduled" else "Draft",
        0, 0);
      Page(page.campaigns + [created], DefaultForm, false)
    else page
  }

  /**
   * The created campaign: the form's name, template and group, nothing sent
   * out of nothing; "Scheduled" exactly when a date was given, and the
   * schedule "Immediate" otherwise.
   */
  lemma CreatedCampaign(page: Page)
    requires page.form.name != "" && page.form.template != "" && page.form.group != ""
    ensures var c := HandleCreate(page).campaigns[|page.campaigns|];
            && c.id == NextId(|page.campaigns|)
            && c.name == page.form.name && c.template == page.form.template && c.group == page.form.group
            && c.sent == 0 && c.total == 0
            && (c.status == "Scheduled" <==> page.form.schedule != "")
            && (c.status == "Draft" <==> page.form.schedule == "")
            && c.schedule == (if page.form.schedule == "" then Immediate else page.form.schedule)
  {
  }

  /** Without deletes the campaign ids stay "1", "2", ... and distinct. */
  lemma CreateKeepsNumbering(page: Page)
    requires NumberedIds(Ids(page.campaigns, IdOf))
    ensures NumberedIds(Ids(HandleCreate(page).campaigns, IdOf))
    ensures NoDuplicates(Ids(HandleCreate(page).campaigns, IdOf))
  {
    var after := HandleCreate(page).campaigns;
    if after != page.campaigns {
      assert Ids(after, IdOf) == Ids(page.campaigns, IdOf) + [NextId(|page.campaigns|)];
      NumberedAppend(Ids(page.campaigns, IdOf));
    }
    NumberedIdsDistinct(Ids(after, IdOf));
  }
}
