/**
 * The contact-groups page: a list of static or dynamic groups and a
 * "create group" modal. The page state is the group list, the form and the
 * modal's open flag.
 */
module GroupsPage {
  import opened Common
  import opened ListPages

  datatype GroupType = Static | Dynamic

  datatype Group = Group(id: string, name: string, kind: GroupType, contactCount: nat, createdAt: string)

  datatype GroupForm = GroupForm(name: string, kind: GroupType)

  const DefaultForm := GroupForm("", Static)

  datatype Page = Page(groups: seq<Group>, form: GroupForm, createOpen: bool)

  function IdOf(g: Group): string {
    g.id
  }

  /**
   * `handleCreate`: with a name, append an empty group of the chosen type
   * created today, reset the form and close the modal; otherwise change nothing.
   */
  function HandleCreate(page: Page, today: string): (r: Page)
    ensures page.form.name == "" ==> r == page
    ensures page.form.name != "" ==>
              && |r.groups| == |page.groups| + 1
              && r.groups[..|page.groups|] == page.groups
              && r.form == DefaultForm && !r.createOpen
  {
    if page.form.name != "" then
      var created := Group(NextId(|page.groups|), page.form.name, page.form.kind, 0, today);
      Page(page.groups + [created], DefaultForm, false)
    else page
  }

  /** The created group has the form's name and type, no contacts, today's date and the next id. */
  lemma CreatedGroup(page: Page, today: string)
    requires page.form.name != ""
    ensures var g := HandleCreate(page, today).groups[|page.groups|];
            && g.id == NextId(|page.groups|) && g.name == page.form.name && g.kind == page.form.kind
            && g.contactCount == 0 && g.createdAt == today
  {
  }

  /** The page offers no delete, so the group ids stay "1", "2", ... and distinct. */
  lemma CreateKeepsNumbering(page: Page, today: string)
    requires NumberedIds(Ids(page.groups, IdOf))
    ensures NumberedIds(Ids(HandleCreate(page, today).groups, IdOf))
    ensures NoDuplicates(Ids(HandleCreate(page, today).groups, IdOf))
  {
    var after := HandleCreate(page, today).groups;
    if after != page.groups {
      assert Ids(after, IdOf) == Ids(page.groups, IdOf) + [NextId(|page.groups|)];
      NumberedAppend(Ids(page.groups, IdOf));
    }
    NumberedIdsDistinct(Ids(after, IdOf));
  }
}
