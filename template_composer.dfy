/**
 * The inbox's template composer: choose an approved WhatsApp template, fill
 * in its numbered parameters `{{1}}`, `{{2}}`, ..., preview the result and
 * send it to one recipient. The mock template list is a parameter; toasts
 * become the outcome value of `HandleSend`.
 */
module TemplateComposer {
  import opened Common
  import opened Strings
  import opened Placeholders

  datatype Category = Marketing | Utility | Authentication
  datatype Status = Approved | Pending | Rejected

  datatype Template = Template(
    id: string,
    name: string,
    category: Category,
    language: string,
    body: string,
    status: Status)

  /** A template is listed when it is approved and its name or body contains the query, ignoring case. */
  predicate Listed(t: Template, query: string) {
    t.status == Approved && (ContainsIgnoringCase(t.name, query) || ContainsIgnoringCase(t.body, query))
  }

  function FilteredTemplates(templates: seq<Template>, query: string): (r: seq<Template>)
    ensures forall t :: t in r <==>
              (t in templates && t.status == Approved
               && (ContainsIgnoringCase(t.name, query) || ContainsIgnoringCase(t.body, query)))
  {
    Filter(templates, t => Listed(t, query))
  }

  /** With an empty search box the list is exactly the approved templates, in order. */
  lemma EmptySearchListsApproved(templates: seq<Template>)
    ensures FilteredTemplates(templates, "") == Filter(templates, (t: Template) => t.status == Approved)
  {
    forall t | t in templates
      ensures Listed(t, "") == (t.status == Approved)
    {
      EmptyQueryMatches(t.name);
    }
    FilterCongruent(templates, (t: Template) => Listed(t, ""), (t: Template) => t.status == Approved);
  }

  // ---------------------------------------------------------------------
  // Numbered variables

  /**
   * `extractVariables`: the digit strings `n` of the `{{n}}` placeholders,
   * each once, in order of first occurrence.
   */
  function ExtractVariables(text: string): (r: seq<string>)
    ensures NoDuplicates(r)
  {
    Distinct(Scan(text, 0, IsDigit))
  }

  /** `n` is reported exactly when it is a non-empty digit string and `{{n}}` occurs in the text. */
  lemma ExtractVariablesSpec(text: string, n: string)
    ensures n in ExtractVariables(text) <==> |n| > 0 && AllDigits(n) && Includes(text, Wrap(n))
  {
    ScanFindsExactly(text, 0, IsDigit, n);
    if |n| > 0 && AllIn(n, IsDigit) && Includes(text, Wrap(n)) {
      var i :| OccursAt(text, Wrap(n), i);
      assert PlaceholderAt(text, 0 + i, n, IsDigit);
    }
  }

  /** A named placeholder such as `{{name}}` is never reported as a variable. */
  lemma NamedPlaceholderIgnored(text: string, n: string, k: nat)
    requires k < |n| && !IsDigit(n[k])
    ensures n !in ExtractVariables(text)
  {
    ExtractVariablesSpec(text, n);
  }

  /** Variables come out in the order in which they first appear in the scan of the text. */
  lemma ExtractVariablesOrder(text: string, i: nat, j: nat)
    requires i < j < |ExtractVariables(text)|
    ensures var scanned := Scan(text, 0, IsDigit);
            var vars := ExtractVariables(text);
            vars[i] in scanned && vars[j] in scanned
            && FirstIndex(scanned, vars[i]) < FirstIndex(scanned, vars[j])
  {
    DistinctInFirstOccurrenceOrder(Scan(text, 0, IsDigit), i, j);
  }

  // ---------------------------------------------------------------------
  // Preview

  /** The text that replaces `{{v}}`: the parameter when it is non-empty, else the placeholder itself. */
  function PreviewValue(params: map<string, string>, v: string): string {
    if v in params && params[v] != "" then params[v] else Wrap(v)
  }

  /** Replace the variables one after another, in the given order. */
  function Rendered(body: string, vars: seq<string>, params: map<string, string>): string
    decreases |vars|
  {
    if vars == [] then body
    else Rendered(ReplaceAll(body, Wrap(vars[0]), PreviewValue(params, vars[0])), vars[1..], params)
  }

  /** `renderTemplatePreview`: rewrites `body` once per extracted variable. */
  method RenderTemplatePreview(template: Template, params: map<string, string>) returns (body: string)
    ensures body == Rendered(template.body, ExtractVariables(template.body), params)
  {
    body := template.body;
    var variables := ExtractVariables(template.body);
    var i := 0;
    while i < |variables|
      invariant 0 <= i <= |variables|
      invariant Rendered(body, variables[i..], params) == Rendered(template.body, variables, params)
    {
      var v := variables[i];
      assert variables[i..][1..] == variables[i + 1..];
      body := ReplaceAll(body, Wrap(v), PreviewValue(params, v));
      i := i + 1;
    }
    assert variables[i..] == [];
  }

  /** Variables without a value keep their `{{n}}` placeholder: with no values the preview is the body. */
  lemma {:induction false} RenderedWithoutValues(body: string, vars: seq<string>, params: map<string, string>)
    requires forall v :: v in vars ==> v !in params || params[v] == ""
    ensures Rendered(body, vars, params) == body
    decreases |vars|
  {
    if vars != [] {
      assert vars[0] in vars;
      ReplaceBySelf(body, Wrap(vars[0]));
      assert forall v :: v in vars[1..] ==> v in vars;
      RenderedWithoutValues(body, vars[1..], params);
    }
  }

  /**
   * One step of the preview on any text: before its first `{{n}}` the text is
   * kept, that placeholder becomes the preview value of `n`, and the rest of
   * the text is rewritten the same way before the remaining variables.
   */
  lemma RenderedReplacesFirstOccurrence(a: string, n: string, b: string, rest: seq<string>, params: map<string, string>)
    requires |n| > 0 && AllDigits(n) && !Includes(a, Wrap(n))
    ensures Rendered(a + Wrap(n) + b, [n] + rest, params)
            == Rendered(a + PreviewValue(params, n) + ReplaceAll(b, Wrap(n), PreviewValue(params, n)), rest, params)
  {
    WrapNoSelfOverlap(n, IsDigit);
    ReplaceFirstOccurrence(a, Wrap(n), b, PreviewValue(params, n));
    assert ([n] + rest)[1..] == rest;
  }

  /**
   * A body holding one placeholder `{{n}}` amid text without `{{` previews as
   * that text with the value of `n` in its place, or unchanged when `n` has
   * no non-empty value.
   */
  lemma PreviewOfOnePlaceholder(a: string, n: string, b: string, params: map<string, string>)
    requires |n| > 0 && AllDigits(n)
    requires !Includes(a, "{{") && !Includes(b, "{{")
    ensures ExtractVariables(a + Wrap(n) + b) == [n]
    ensures Rendered(a + Wrap(n) + b, ExtractVariables(a + Wrap(n) + b), params)
            == a + PreviewValue(params, n) + b
  {
    var s := a + Wrap(n) + b;
    var v := PreviewValue(params, n);
    ScanOfOnePlaceholder(a, n, b, IsDigit);
    DistinctOfRepeats(Scan(s, 0, IsDigit), n);
    WrapNotIncluded(a, n);
    WrapNotIncluded(b, n);
    RenderedReplacesFirstOccurrence(a, n, b, [], params);
    ReplaceAbsent(b, Wrap(n), v);
  }

  // ---------------------------------------------------------------------
  // Sending

  /** A parameter is missing when it is absent, empty, or `trim()`s to the empty string. */
  predicate IsMissing(params: map<string, string>, v: string) {
    v !in params || params[v] == "" || Trim(params[v]) == ""
  }

  /** Missing means absent or made only of white space. */
  lemma IsMissingIffBlank(params: map<string, string>, v: string)
    ensures IsMissing(params, v) <==> v !in params || IsBlank(params[v])
  {
    if v in params {
      TrimEmptyIffBlank(params[v]);
    }
  }

  /**
   * What `handleSend` does: an error toast for a missing template or recipient,
   * an error toast naming the missing parameters, or `onSend(id, recipient)`
   * followed by `onClose()`.
   */
  datatype SendOutcome =
    | MissingSelection
    | MissingParameters(missing: seq<string>)
    | Sent(templateId: string, recipient: string)

  method HandleSend(selected: Option<Template>, recipient: string, params: map<string, string>)
    returns (outcome: SendOutcome)
    ensures outcome == MissingSelection <==> selected.None? || recipient == ""
    ensures outcome.MissingParameters? ==>
              selected.Some? && outcome.missing != []
              && outcome.missing == Filter(ExtractVariables(selected.value.body), v => IsMissing(params, v))
    ensures outcome.Sent? <==>
              selected.Some? && recipient != ""
              && forall v :: v in ExtractVariables(selected.value.body) ==> !IsMissing(params, v)
    ensures outcome.Sent? ==> outcome == Sent(selected.value.id, recipient)
  {
    if selected.None? || recipient == "" {
      return MissingSelection;
    }
    var template := selected.value;
    var variables := ExtractVariables(template.body);
    var missing := Filter(variables, v => IsMissing(params, v));
    if |missing| > 0 {
      assert missing[0] in missing;
      return MissingParameters(missing);
    }
    assert forall v :: v in variables ==> !IsMissing(params, v);
    outcome := Sent(template.id, recipient);
  }

  /**
   * Clicking a template selects it and rebuilds the parameter map: its keys are
   * that template's variables, each keeping its previous value or starting empty.
   */
  method SelectTemplate(template: Template, previous: map<string, string>)
    returns (selected: Option<Template>, params: map<string, string>)
    ensures selected == Some(template)
    ensures params.Keys == set v | v in ExtractVariables(template.body)
    ensures forall v :: v in params ==> params[v] == (if v in previous then previous[v] else "")
  {
    selected := Some(template);
    var variables := ExtractVariables(template.body);
    params := map[];
    var i := 0;
    while i < |variables|
      invariant 0 <= i <= |variables|
      invariant params.Keys == set j | 0 <= j < i :: variables[j]
      invariant forall v :: v in params ==> params[v] == (if v in previous then previous[v] else "")
    {
      var v := variables[i];
      params := params[v := if v in previous && previous[v] != "" then previous[v] else ""];
      i := i + 1;
    }
    assert forall v :: v in variables ==> exists j :: 0 <= j < |variables| && variables[j] == v;
  }
}
