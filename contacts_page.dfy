/**
 * The contacts page: a searchable, filterable list of contacts with an
 * "add contact" modal, an edit action that fills the form, and a delete
 * action. The page state is the contact list, the form and the modal's
 * open flag; each handler maps one page state to the next.
 */
module ContactsPage {
  import opened Common
  import opened Strings
  import opened Dates
  import opened AdvancedFilter
  import opened ListPages

  datatype Contact = Contact(id: string, name: string, phone: string, email: string, status: string, createdAt: string)

  datatype ContactForm = ContactForm(name: string, phone: string, email: string)

  const EmptyForm := ContactForm("", "", "")

  datatype Page = Page(contacts: seq<Contact>, form: ContactForm, addOpen: bool)

  function IdOf(c: Contact): string {
    c.id
  }

  // ---------------------------------------------------------------------
  // The list filter

  /** Name and email are searched ignoring case, the phone number as typed. */
  predicate SearchPasses(c: Contact, query: string) {
    ContainsIgnoringCase(c.name, query) || Includes(c.phone, query) || ContainsIgnoringCase(c.email, query)
  }

  /** The "email domain" filter applies only when it is a non-empty string. */
  predicate EmailPasses(c: Contact, v: FilterValue) {
    v.Text? && v.text != "" ==> ContainsIgnoringCase(c.email, v.text)
  }

  /** The creation date is `new Date(createdAt)`; an unparsable one is never excluded. */
  predicate ContactMatches(cal: Calendar, c: Contact, query: string, filters: FilterState) {
    && SearchPasses(c, query)
    && EqualityFilterPasses(Lookup(filters, "status"), c.status)
    && DateFilterPasses(cal, Lookup(filters, "createdAt"), cal.parse(c.createdAt))
    && EmailPasses(c, Lookup(filters, "email"))
  }

  /** The filter callback as written, with the flags `matchesDate` and `matchesEmail`. */
  method MatchContact(cal: Calendar, c: Contact, query: string, filters: FilterState) returns (ok: bool)
    ensures ok == ContactMatches(cal, c, query, filters)
  {
    var matchesSearch := ContainsIgnoringCase(c.name, query) || Includes(c.phone, query) || ContainsIgnoringCase(c.email, query);
    var status := Lookup(filters, "status");
    var matchesStatus := !Truthy(status) || status == Text(c.status);
    var matchesDate := MatchesDate(cal, Lookup(filters, "createdAt"), cal.parse(c.createdAt));
    var matchesEmail := true;
    var email := Lookup(filters, "email");
    if email.Text? && email.text != "" {
      matchesEmail := ContainsIgnoringCase(c.email, email.text);
    }
    ok := matchesSearch && matchesStatus && matchesDate && matchesEmail;
  }

  function FilteredContacts(cal: Calendar, contacts: seq<Contact>, query: string, filters: FilterState): (r: seq<Contact>)
    ensures |r| <= |contacts|
    ensures forall c :: c in r <==> c in contacts && ContactMatches(cal, c, query, filters)
  {
    Filter(contacts, (c: Contact) => ContactMatches(cal, c, query, filters))
  }

  /** An empty search with no advanced filter lists every contact. */
  lemma NoFiltersListsAll(cal: Calendar, contacts: seq<Contact>)
    ensures FilteredContacts(cal, contacts, "", map[]) == contacts
  {
    forall c | c in contacts
      ensures ContactMatches(cal, c, "", map[])
    {
      EmptyQueryMatches(c.name);
    }
    FilterKeepsAll(contacts, (c: Contact) => ContactMatches(cal, c, "", map[]));
  }

  /** The email filter ignores the case of what was typed into it. */
  lemma EmailFilterIgnoresCase(c: Contact, s: string)
    requires s != ""
    ensures EmailPasses(c, Text(Lower(s))) == EmailPasses(c, Text(s))
  {
    QueryCaseIgnored(c.email, s);
  }

  // ---------------------------------------------------------------------
  // Handlers

  /**
   * `handleAdd`, as written: with a name and a phone number, append a contact
   * with id `String(contacts.length + 1)`, status "Active" and today's date,
   * empty the form and close the modal; otherwise change nothing.
   */
  function HandleAdd(page: Page, today: string): (r: Page)
    ensures page.form.name == "" || page.form.phone == "" ==> r == page
    ensures page.form.name != "" && page.form.phone != "" ==>
              && |r.contacts| == |page.contacts| + 1
              && r.contacts[..|page.contacts|] == page.contacts
              && r.contacts[|page.contacts|] == Contact(NextId(|page.contacts|), page.form.name, page.form.phone, page.form.email, "Active", today)
              && r.form == EmptyForm && !r.addOpen
  {
    if page.form.name != "" && page.form.phone != "" then
      var added := Contact(NextId(|page.contacts|), page.form.name, page.form.phone, page.form.email, "Active", today);
      Page(page.contacts + [added], EmptyForm, false)
    else page
  }

  /** `handleEdit`: the form takes the contact's name, phone and email and the modal opens. */
  function HandleEdit(page: Page, contact: Contact): (r: Page)
    ensures r.contacts == page.contacts && r.addOpen
    ensures r.form.name == contact.name && r.form.phone == contact.phone && r.form.email == contact.email
  {
    Page(page.contacts, ContactForm(contact.name, contact.phone, contact.email), true)
  }

  /** `handleDelete`: every contact with the row's id goes; the rest keep their order. */
  function HandleDelete(page: Page, contact: Contact): (r: Page)
    ensures r.form == page.form && r.addOpen == page.addOpen
    ensures forall c :: c in r.contacts <==> c in page.contacts && c.id != contact.id
  {
    page.(contacts := Filter(page.contacts, (c: Contact) => c.id != contact.id))
  }

  /** Until the first delete the list stays numbered "1", "2", ..., so the added ids are distinct. */
  lemma AddKeepsNumbering(page: Page, today: string)
    requires NumberedIds(Ids(page.contacts, IdOf))
    ensures NumberedIds(Ids(HandleAdd(page, today).contacts, IdOf))
    ensures NoDuplicates(Ids(HandleAdd(page, today).contacts, IdOf))
  {
    var after := HandleAdd(page, today).contacts;
    if after != page.contacts {
      assert Ids(after, IdOf) == Ids(page.contacts, IdOf) + [NextId(|page.contacts|)];
      NumberedAppend(Ids(page.contacts, IdOf));
    }
    NumberedIdsDistinct(Ids(after, IdOf));
  }

  // ---------------------------------------------------------------------
  // Finding: `String(contacts.length + 1)` repeats an id after a delete

  /**
   * Three contacts "1", "2", "3"; deleting "1" leaves two, so the next add
   * computes `String(2 + 1)` and a second contact gets the id "3".
   */
  lemma DeleteThenAddRepeatsId(first: Contact, second: Contact, third: Contact, form: ContactForm, today: string)
    requires first.id == "1" && second.id == "2" && third.id == "3"
    requires form.name != "" && form.phone != ""
    ensures var after := HandleAdd(HandleDelete(Page([first, second, third], form, true), first), today);
            |after.contacts| == 3 && after.contacts[1].id == "3" && after.contacts[2].id == "3"
  {
    var page := Page([first, second, third], form, true);
    var keep := (c: Contact) => c.id != first.id;
    assert Filter([third], keep) == [third];
    assert [second, third][1..] == [third];
    assert Filter([second, third], keep) == [second, third];
    assert [first, second, third][1..] == [second, third];
    assert HandleDelete(page, first).contacts == [second, third];
    assert NextId(2) == "3";
  }

  /** `handleAdd` with an id one above every numeric id in the list. */
  function HandleAddFreshId(page: Page, today: string): (r: Page)
    ensures page.form.name == "" || page.form.phone == "" ==> r == page
    ensures page.form.name != "" && page.form.phone != "" ==>
              && r.contacts == page.contacts + [Contact(FreshId(Ids(page.contacts, IdOf)), page.form.name, page.form.phone, page.form.email, "Active", today)]
              && r.form == EmptyForm && !r.addOpen
  {
    if page.form.name != "" && page.form.phone != "" then
      var added := Contact(FreshId(Ids(page.contacts, IdOf)), page.form.name, page.form.phone, page.form.email, "Active", today);
      Page(page.contacts + [added], EmptyForm, false)
    else page
  }

  /** The corrected add keeps ids unique, whatever deletes came before. */
  lemma AddFreshIdKeepsIdsUnique(page: Page, today: string)
    requires DistinctKeys(page.contacts, IdOf)
    ensures DistinctKeys(HandleAddFreshId(page, today).contacts, IdOf)
  {
    var after := HandleAddFreshId(page, today).contacts;
    if after != page.contacts {
      var newId := FreshId(Ids(page.contacts, IdOf));
      forall i | 0 <= i < |page.contacts|
        ensures page.contacts[i].id != newId
      {
        assert Ids(page.contacts, IdOf)[i] == page.contacts[i].id;
      }
    }
  }

  /** Deleting keeps ids unique. */
  lemma DeleteKeepsIdsUnique(page: Page, contact: Contact)
    requires DistinctKeys(page.contacts, IdOf)
    ensures DistinctKeys(HandleDelete(page, contact).contacts, IdOf)
  {
    FilterKeepsKeysDistinct(page.contacts, (c: Contact) => c.id != contact.id, IdOf);
  }

  /** On a list that was never shortened, the corrected add gives the same id as the original. */
  lemma FreshIdAgreesWhileNumbered(page: Page, today: string)
    requires NumberedIds(Ids(page.contacts, IdOf))
    ensures HandleAddFreshId(page, today) == HandleAdd(page, today)
  {
    FreshIdOnNumbered(Ids(page.contacts, IdOf));
  }
}
