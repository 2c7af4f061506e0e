/**
 * The message-templates page: a searchable, filterable list of templates, a
 * "create template" modal whose body may hold `{{word}}` variables, and an
 * "AI" modal that offers three canned variations built from the stated
 * intent. The page state is the list, the two forms, the offered
 * variations and the two modals' open flags.
 */
module TemplatesPage {
  import opened Common
  import opened Strings
  import opened Placeholders
  import opened AdvancedFilter
  import opened ListPages

  datatype Template = Template(id: string, title: string, kind: string, language: string, status: string, body: string)

  /** The create form; `kind` is the source's `type` field. */
  datatype TemplateForm = TemplateForm(title: string, kind: string, language: string, body: string)

  datatype AiPrompt = AiPrompt(intent: string, tone: string, kind: string, language: string)

  const DefaultForm := TemplateForm("", "Marketing", "en", "")

  datatype Page = Page(
    templates: seq<Template>,
    form: TemplateForm,
    prompt: AiPrompt,
    variations: seq<string>,
    createOpen: bool,
    aiOpen: bool)

  function IdOf(t: Template): string {
    t.id
  }

  // ---------------------------------------------------------------------
  // The list filter

  /** Title or body contains the query, ignoring case; status, category and language are select filters. */
  predicate TemplateMatches(t: Template, query: string, filters: FilterState) {
    && (ContainsIgnoringCase(t.title, query) || ContainsIgnoringCase(t.body, query))
    && EqualityFilterPasses(Lookup(filters, "status"), t.status)
    && EqualityFilterPasses(Lookup(filters, "type"), t.kind)
    && EqualityFilterPasses(Lookup(filters, "language"), t.language)
  }

  function FilteredTemplates(templates: seq<Template>, query: string, filters: FilterState): (r: seq<Template>)
    ensures |r| <= |templates|
    ensures forall t :: t in r <==> t in templates && TemplateMatches(t, query, filters)
  {
    Filter(templates, (t: Template) => TemplateMatches(t, query, filters))
  }

  /** An empty search with no advanced filter lists every template. */
  lemma NoFiltersListsAll(templates: seq<Template>)
    ensures FilteredTemplates(templates, "", map[]) == templates
  {
    forall t | t in templates
      ensures TemplateMatches(t, "", map[])
    {
      EmptyQueryMatches(t.title);
    }
    FilterKeepsAll(templates, (t: Template) => TemplateMatches(t, "", map[]));
  }

  /** With a status chosen, only templates of that status are listed. */
  lemma StatusFilterSelects(templates: seq<Template>, query: string, filters: FilterState, status: string)
    requires status != "" && Lookup(filters, "status") == Text(status)
    ensures forall t :: t in FilteredTemplates(templates, query, filters) ==> t.status == status
  {
  }

  // ---------------------------------------------------------------------
  // Variables in the body

  /** `text.match(/\{\{(\w+)\}\}/g) || []`: each whole match, braces included, in order, repeats kept. */
  function DetectVariables(text: string): (r: seq<string>)
    ensures |r| == |Scan(text, 0, IsWordChar)|
    ensures forall k :: 0 <= k < |r| ==> r[k] == Wrap(Scan(text, 0, IsWordChar)[k])
  {
    var words := Scan(text, 0, IsWordChar);
    seq(|words|, k requires 0 <= k < |words| => Wrap(words[k]))
  }

  /** A string is reported exactly when it is `{{w}}` for a non-empty word `w` that occurs in the text. */
  lemma DetectVariablesSpec(text: string, w: string)
    ensures Wrap(w) in DetectVariables(text) <==> |w| > 0 && AllIn(w, IsWordChar) && Includes(text, Wrap(w))
  {
    var words := Scan(text, 0, IsWordChar);
    var r := DetectVariables(text);
    ScanFindsExactly(text, 0, IsWordChar, w);
    if Wrap(w) in r {
      var k :| 0 <= k < |r| && r[k] == Wrap(w);
      assert Wrap(words[k]) == Wrap(w);
      assert words[k] == Wrap(w)[2..|Wrap(w)| - 2] == w;
      assert w in words;
    }
    if |w| > 0 && AllIn(w, IsWordChar) && Includes(text, Wrap(w)) {
      var i :| OccursAt(text, Wrap(w), i);
      assert PlaceholderAt(text, i, w, IsWordChar);
      assert w in words;
      var k :| 0 <= k < |words| && words[k] == w;
      assert r[k] == Wrap(w);
    }
  }

  /** A body without `{{` has no variables: the empty list stands for `null`. */
  lemma NoBracesNoVariables(text: string)
    requires !Includes(text, "{{")
    ensures DetectVariables(text) == []
  {
    ScanWithoutOpeningBraces(text, 0, IsWordChar);
  }

  /** A variable used twice is reported twice. */
  lemma RepeatedVariableReportedTwice()
    ensures DetectVariables("{{a}}{{a}}") == ["{{a}}", "{{a}}"]
  {
    var s := "{{a}}{{a}}";
    assert s[3] == '}' && s[8] == '}' && !IsWordChar('}');
    assert RunLength(s, 3, IsWordChar) == 0 && RunLength(s, 2, IsWordChar) == 1;
    assert RunLength(s, 8, IsWordChar) == 0 && RunLength(s, 7, IsWordChar) == 1;
    assert s[2..3] == "a" && s[7..8] == "a";
    assert MatchAt(s, 0, IsWordChar) == Some("a");
    assert MatchAt(s, 5, IsWordChar) == Some("a");
    assert Scan(s, 10, IsWordChar) == [];
    assert Scan(s, 5, IsWordChar) == ["a"];
    assert Scan(s, 0, IsWordChar) == ["a", "a"];
    assert Wrap("a") == "{{a}}";
    var r := DetectVariables(s);
    assert |r| == 2 && r[0] == "{{a}}" && r[1] == "{{a}}";
  }

  // ---------------------------------------------------------------------
  // Handlers

  /**
   * `handleCreate`: with a title and a body, append the form as a "Pending"
   * template, reset the form and close the create modal; otherwise change nothing.
   */
  function HandleCreate(page: Page): (r: Page)
    ensures page.form.title == "" || page.form.body == "" ==> r == page
    ensures page.form.title != "" && page.form.body != "" ==>
              && |r.templates| == |page.templates| + 1
              && r.templates[..|page.templates|] == page.templates
              && r.form == DefaultForm && !r.createOpen
              && r.prompt == page.prompt && r.variations == page.variations && r.aiOpen == page.aiOpen
  {
    var f := page.form;
    if f.title != "" && f.body != "" then
      var created := Template(NextId(|page.templates|), f.title, f.kind, f.language, "Pending", f.body);
      page.(templates := page.templates + [created], form := DefaultForm, createOpen := false)
    else page
  }

  /** The created template carries the form's fields, the next id and the status "Pending". */
  lemma CreatedTemplate(page: Page)
    requires page.form.title != "" && page.form.body != ""
    ensures var t := HandleCreate(page).templates[|page.templates|];
            && t.id == NextId(|page.templates|) && t.status == "Pending"
            && t.title == page.form.title && t.kind == page.form.kind
            && t.language == page.form.language && t.body == page.form.body
  {
  }

  /** Without deletes the template ids stay "1", "2", ... and distinct. */
  lemma CreateKeepsNumbering(page: Page)
    requires NumberedIds(Ids(page.templates, IdOf))
    ensures NumberedIds(Ids(HandleCreate(page).templates, IdOf))
    ensures NoDuplicates(Ids(HandleCreate(page).templates, IdOf))
  {
    var after := HandleCreate(page).templates;
    if after != page.templates {
      assert Ids(after, IdOf) == Ids(page.templates, IdOf) + [NextId(|page.templates|)];
      NumberedAppend(Ids(page.templates, IdOf));
    }
    NumberedIdsDistinct(Ids(after, IdOf));
  }

  /** The three canned variations, each wrapping the intent in a fixed opening and closing. */
  function Variations(intent: string): (r: seq<string>)
    ensures |r| == 3
    ensures forall k :: 0 <= k < 3 ==> Includes(r[k], intent)
  {
    var r := [
      "Hello! " + intent + ". We're here to help.",
      "Hi there! " + intent + ". Looking forward to connecting with you.",
      "Welcome! " + intent + ". Thanks for reaching out."
    ];
    IncludesInfix("Hello! ", intent, ". We're here to help.");
    IncludesInfix("Hi there! ", intent, ". Looking forward to connecting with you.");
    IncludesInfix("Welcome! ", intent, ". Thanks for reaching out.");
    r
  }

  /** `handleGenerateAI`: only the offered variations change. */
  function HandleGenerateAI(page: Page): (r: Page)
    ensures r.variations == Variations(page.prompt.intent)
    ensures r.(variations := page.variations) == page
  {
    page.(variations := Variations(page.prompt.intent))
  }

  /**
   * `handleSelectVariation`: the chosen text becomes the form's body, the
   * other form fields stay, the variations are dropped, and the AI modal
   * gives way to the create modal.
   */
  function HandleSelectVariation(page: Page, variation: string): (r: Page)
    ensures r.form == page.form.(body := variation)
    ensures r.variations == [] && !r.aiOpen && r.createOpen
    ensures r.templates == page.templates && r.prompt == page.prompt
  {
    page.(form := page.form.(body := variation), variations := [], aiOpen := false, createOpen := true)
  }

  /** Picking a variation and creating at once adds a template whose body mentions the intent. */
  lemma GenerateSelectCreate(page: Page, k: nat)
    requires page.form.title != "" && k < 3
    ensures var generated := HandleGenerateAI(page);
            var chosen := HandleSelectVariation(generated, generated.variations[k]);
            var created := HandleCreate(chosen);
            && |created.templates| == |page.templates| + 1
            && Includes(created.templates[|page.templates|].body, page.prompt.intent)
  {
    var v := Variations(page.prompt.intent)[k];
    assert |v| > 0 by {
      assert Includes(v, page.prompt.intent);
      if k == 0 { assert v[0] == 'H'; } else if k == 1 { assert v[0] == 'H'; } else { assert v[0] == 'W'; }
    }
  }
}
