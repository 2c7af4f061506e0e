# WhatsApp dashboard core, modelled in Dafny

This project models the logic of a WhatsApp-messaging dashboard: an API
service and a Next.js client. It proves properties of that model.

- **The API's authentication service.** Registration with a six-digit e-mail
  verification code, login, forgotten-password and reset-password with a
  one-hour reset token, e-mail verification, re-sending the code, and reading
  the current profile. It is a class over a map of accounts. The clock,
  randomness, bcrypt, JWT signing and the database's new-row id are
  parameters.
- **The client's template handling.** The inbox composer finds the numbered
  `{{n}}` parameters of a WhatsApp template and previews the template with
  the values filled in. Its send gate refuses blank values. The templates
  page finds the `{{word}}` variables of a body.
- **The one-time-code input.** A fixed-size array of cells, updated by
  typing, pasting and backspace.
- **The advanced-filter popover.** It keeps a draft and a committed filter
  map and derives the active count and the badge labels from them.
- **The list filters.** The inbox, contacts, campaigns and templates lists
  each filter their records with the popover's filters, a search box and a
  date range.
- **The list edits.** These cover:
  - the "create" handlers of the contacts, campaigns, templates and groups pages;
  - the delete and edit handlers of the contacts page;
  - the chatbot flow builder's node and edge edits;
  - the data table's row selection and placeholder-row span;
  - the chat window's send and its by-id status updates;
  - the `useModal` hook.

## Files and modules

| file | module | models |
|---|---|---|
| common.dfy | `Common` | Option/Result, `filter`, first-occurrence de-duplication |
| strings.dfy | `Strings` | ASCII `toLowerCase`, `includes`, `trim`, decimal and hex rendering |
| placeholders.dfy | `Placeholders` | the `{{...}}` scanner and literal global replace |
| auth_service.dfy | `AuthService` | `apps/api/src/auth/auth.service.ts` |
| template_composer.dfy | `TemplateComposer` | `apps/client/components/inbox/template-composer.tsx` |
| input_otp.dfy | `InputOtp` | `apps/client/components/ui/input-otp.tsx` |
| advanced_filter.dfy | `AdvancedFilter` | `apps/client/components/common/AdvancedFilter.tsx` |
| data_table.dfy | `DataTable` | `apps/client/components/common/DataTable.tsx` |
| flow_builder.dfy | `FlowBuilder` | `apps/client/components/chatbot/chatbot-flow-builder.tsx` |
| dates.dfy | `Dates` | the date-range test the list pages share |
| list_pages.dfy | `ListPages` | select filters, the date flag and row ids shared by the list pages |
| inbox_view.dfy | `InboxView` | `apps/client/components/inbox/inbox-view.tsx` |
| contacts_page.dfy | `ContactsPage` | `apps/client/app/dashboard/contacts/page.tsx` |
| campaigns_page.dfy | `CampaignsPage` | `apps/client/app/dashboard/campaigns/page.tsx` |
| templates_page.dfy | `TemplatesPage` | `apps/client/app/dashboard/templates/page.tsx` |
| groups_page.dfy | `GroupsPage` | `apps/client/app/dashboard/groups/page.tsx` |
| chat_window.dfy | `ChatWindow` | `apps/client/components/inbox/chat-window.tsx` |
| use_modal.dfy | `UseModal` | `apps/client/hooks/use-modal.ts` |

**Code that updates state step by step is imperative Dafny.** This covers:
- the auth service;
- the OTP cells, which are an `array` written by index, including in the paste loop;
- the filter popover's draft and committed maps;
- the data table's selection set;
- the modal;
- the loops of the template preview and of the parameter reset.

The filter callbacks that clear `let` flags are `method`s, each proved equal
to a predicate.

**Code made of spreads, `filter` and `map` is functions.** This covers the
flow builder, the page handlers and the chat window.

## Model

| member | source | states |
|---|---|---|
| Common.Filter | apps/client/components/inbox/inbox-view.tsx:137-183 | `Array.prototype.filter`: the result holds exactly the elements of the input that satisfy the predicate, and every element of it satisfies it |
| Common.FilterAppend | apps/client/components/inbox/inbox-view.tsx:137-183 | filtering distributes over concatenation, so the result keeps the input's order |
| Common.FilterKeepsKeysDistinct | apps/client/app/dashboard/contacts/page.tsx:175-177 | removing rows with `filter` cannot make two remaining rows share a key |
| Common.Distinct | apps/client/components/inbox/template-composer.tsx:106 | `[...new Set(xs)]` has the same elements as `xs` and no duplicates |
| Common.DistinctInFirstOccurrenceOrder | apps/client/components/inbox/template-composer.tsx:106 | the de-duplicated elements appear in the order of their first occurrence in `xs` |
| Common.DistinctOfRepeats | apps/client/components/inbox/template-composer.tsx:106 | de-duplicating a sequence that repeats one value gives that value once |
| Strings.Includes | apps/client/app/dashboard/contacts/page.tsx:115 | `s.includes(needle)` holds exactly when `needle` occurs in `s` at some index |
| Strings.QueryCaseIgnored | apps/client/app/dashboard/contacts/page.tsx:114-116 | lower-casing the query before a case-ignoring search changes nothing |
| Strings.EmptyQueryMatches | apps/client/components/inbox/inbox-view.tsx:140 | an empty search matches every string, with or without case folding |
| Strings.TrimEmptyIffBlank | apps/client/components/inbox/chat-window.tsx:99 | `s.trim() === ""` holds exactly when `s` consists only of ECMAScript white space |
| Strings.DecimalRoundTrip | apps/client/app/dashboard/contacts/page.tsx:156 | `String(n)` can be read back to `n` |
| Strings.NatToDecimalInjective | apps/client/app/dashboard/contacts/page.tsx:156 | different numbers render as different decimal strings |
| Strings.DecimalLength | apps/api/src/auth/auth.service.ts:42 | a number between 10^(k-1) and 10^k renders with exactly k digits |
| Strings.HexRoundTrip | apps/api/src/auth/auth.service.ts:131 | `toString('hex')` loses nothing: the bytes can be read back from the text |
| Placeholders.MatchAtIsPlaceholder | apps/client/components/inbox/template-composer.tsx:105 | the regular expression matches at index i exactly when `{{w}}` starts there with w a non-empty run of the class |
| Placeholders.ScanFindsExactly | apps/client/components/inbox/template-composer.tsx:105 | a global match reports w exactly when `{{w}}` occurs in the text, with w a non-empty run of the class |
| Placeholders.ScanWithoutOpeningBraces | apps/client/app/dashboard/templates/page.tsx:174-175 | a text without `{{` has no matches |
| Placeholders.ReplaceBySelf | apps/client/components/inbox/template-composer.tsx:113-116 | replacing a placeholder by itself leaves the body unchanged |
| Placeholders.ReplaceAbsent | apps/client/components/inbox/template-composer.tsx:113-116 | replacing a pattern that does not occur leaves the body unchanged |
| Placeholders.WrapNoSelfOverlap | apps/client/components/inbox/template-composer.tsx:115 | a placeholder `{{n}}` whose n is a non-empty run of a brace-free class never overlaps itself |
| Placeholders.ReplaceFirstOccurrence | apps/client/components/inbox/template-composer.tsx:115 | a global replace of a pattern that cannot overlap itself keeps the text before its first occurrence, replaces that occurrence, and goes on behind it |
| Placeholders.ScanOfOnePlaceholder | apps/client/components/inbox/template-composer.tsx:105 | the global match over one placeholder amid text without `{{` finds that placeholder's inner text and nothing else |
| AuthService.VerificationCodeIsSixDigits | apps/api/src/auth/auth.service.ts:42 | the code is the decimal rendering of an integer in [100000, 999999], has six digits and reads back as that integer |
| AuthService.ResetTokenOf | apps/api/src/auth/auth.service.ts:131 | the reset token is 64 lower-case hex digits |
| AuthService.FindByEmail | apps/api/src/auth/auth.service.ts:30-32 | `findUnique` by e-mail returns the account with that address, or nothing when no account has it |
| AuthService.AuthService.constructor | apps/api/src/auth/auth.service.ts:20-24 | the service starts with the given store and column defaults |
| AuthService.AuthService.Register | apps/api/src/auth/auth.service.ts:26-72 | a taken address gives Conflict and no write. Otherwise exactly one new account is added: unverified, holding the fresh code, which expires now + 3600000. The store stays well formed, and verified accounts still hold no code |
| AuthService.AuthService.Login | apps/api/src/auth/auth.service.ts:74-113 | an unknown address and a wrong password give the same Unauthorized error. An unverified address is refused only after the password matched. Success holds exactly when some account has that address, a matching password and a verified e-mail. The store is not written |
| AuthService.AuthService.ForgotPassword | apps/api/src/auth/auth.service.ts:115-149 | the same message for known and unknown addresses. Only a known address's account changes: it gets the 64-hex-digit token and an expiry of now + 3600000 |
| AuthService.AuthService.ResetPassword | apps/api/src/auth/auth.service.ts:151-189 | a password mismatch is refused before any lookup. Without an account holding the token unexpired (strictly later than now) the request is refused. Success holds exactly when such an account exists; that account alone gets the new hash, and its token and expiry are cleared |
| AuthService.AuthService.VerifyEmail | apps/api/src/auth/auth.service.ts:191-231 | "Invalid verification code" holds exactly when no account holds the code unexpired. An already-verified holder is refused, which cannot happen while verified accounts hold no code. Success verifies that one holder and clears its code and expiry |
| AuthService.AuthService.ResendVerification | apps/api/src/auth/auth.service.ts:233-271 | an unknown address gets the generic message and no write. A verified one gets BadRequest. Otherwise only that account gets a new code and expiry |
| AuthService.AuthService.GetCurrentUser | apps/api/src/auth/auth.service.ts:273-293 | NotFound exactly when the id is not stored, else that account's profile |
| AuthService.SignUpThenLogIn | apps/api/src/auth/auth.service.ts:26-113 | register, then verify with the issued code before it expires, then log in with the matching password: the result is a session for the new account |
| AuthService.VerificationCodeIsSingleUse | apps/api/src/auth/auth.service.ts:213-220 | after a code verified an account, the same code is refused |
| AuthService.ResetTokenIsSingleUse | apps/api/src/auth/auth.service.ts:177-184 | after a token reset a password, the same token is refused |
| TemplateComposer.FilteredTemplates | apps/client/components/inbox/template-composer.tsx:97-102 | exactly the approved templates whose name or body contains the query, ignoring case |
| TemplateComposer.EmptySearchListsApproved | apps/client/components/inbox/template-composer.tsx:97-102 | with an empty query the list is the approved templates in order |
| TemplateComposer.ExtractVariables | apps/client/components/inbox/template-composer.tsx:104-107 | the extracted variables have no duplicates |
| TemplateComposer.ExtractVariablesSpec | apps/client/components/inbox/template-composer.tsx:104-107 | n is extracted exactly when it is a non-empty digit string and `{{n}}` occurs in the text |
| TemplateComposer.NamedPlaceholderIgnored | apps/client/components/inbox/template-composer.tsx:105 | a placeholder with a non-digit character, such as `{{name}}`, is never a variable |
| TemplateComposer.ExtractVariablesOrder | apps/client/components/inbox/template-composer.tsx:104-107 | variables come out in order of first occurrence |
| TemplateComposer.RenderTemplatePreview | apps/client/components/inbox/template-composer.tsx:109-119 | the loop replaces the extracted variables one after another, each by its non-empty value or by its own placeholder |
| TemplateComposer.RenderedWithoutValues | apps/client/components/inbox/template-composer.tsx:113-116 | variables without a value keep their placeholders: with no values the preview is the body |
| TemplateComposer.RenderedReplacesFirstOccurrence | apps/client/components/inbox/template-composer.tsx:113-116 | on any text, the text before the first `{{n}}` is kept, that placeholder becomes n's non-empty value or stays as it is, and the rest of the text is rewritten the same way before the remaining variables |
| TemplateComposer.PreviewOfOnePlaceholder | apps/client/components/inbox/template-composer.tsx:104-119 | a body holding one placeholder `{{n}}` amid text without `{{` extracts exactly [n] and previews as that text with n's non-empty value, or the placeholder itself, in its place |
| TemplateComposer.IsMissingIffBlank | apps/client/components/inbox/template-composer.tsx:132-134 | a parameter is missing exactly when it is absent or white space only |
| TemplateComposer.HandleSend | apps/client/components/inbox/template-composer.tsx:121-152 | the outcome is an error exactly when no template or recipient is chosen. Otherwise an error lists the missing variables in order. `onSend(template.id, recipient)` happens exactly when all checks pass |
| TemplateComposer.SelectTemplate | apps/client/components/inbox/template-composer.tsx:204-211 | the selection becomes the template, the parameter keys are exactly its variables, and each value is carried over or "" |
| InputOtp.InitialCells | apps/client/components/ui/input-otp.tsx:14-16 | the initial cells number exactly `length` |
| InputOtp.InitialCellsJoin | apps/client/components/ui/input-otp.tsx:14-16 | the initial cells hold exactly the first `length` characters of `value` |
| InputOtp.Clip | apps/client/components/ui/input-otp.tsx:29 | the pasted text used is its first `length` characters at most |
| InputOtp.Pasted | apps/client/components/ui/input-otp.tsx:29-36 | a paste keeps the number of cells |
| InputOtp.PasteWholeCode | apps/client/components/ui/input-otp.tsx:27-40 | pasting a whole code of digits into the first cell fills the input with that code |
| InputOtp.OtpInput.constructor | apps/client/components/ui/input-otp.tsx:14-16 | the cells are the initial cells and nothing is focused |
| InputOtp.OtpInput.SyncValue | apps/client/components/ui/input-otp.tsx:19-24 | a non-empty value replaces the cells; an empty one leaves them |
| InputOtp.OtpInput.HandleChange | apps/client/components/ui/input-otp.tsx:26-53 | A paste writes pasted digit i to cell index+i when that cell exists, emits the joined cells and focuses min(index + pasted, length - 1). A non-digit character changes nothing and emits nothing. A digit or deletion writes that cell only, emits the joined cells, and moves focus right after a digit unless at the last cell. Strings are counted in Unicode scalar values, so this matches the source for input in the Basic Multilingual Plane |
| InputOtp.OtpInput.HandleKeyDown | apps/client/components/ui/input-otp.tsx:55-62 | Backspace in an empty cell after the first moves focus left; nothing else changes |
| InputOtp.TypeDigitIntoFreshInput | apps/client/components/ui/input-otp.tsx:45-48 | typing a digit into a fresh input emits the old value with that digit in its place |
| UseModal.Modal.constructor | apps/client/hooks/use-modal.ts:6 | the modal starts closed |
| UseModal.Modal.Open | apps/client/hooks/use-modal.ts:8 | opens |
| UseModal.Modal.Close | apps/client/hooks/use-modal.ts:9 | closes |
| UseModal.Modal.Toggle | apps/client/hooks/use-modal.ts:10 | negates the state |
| UseModal.Modal.OnOpenChange | apps/client/hooks/use-modal.ts:11 | sets exactly the given state |
| UseModal.ToggleTwiceRestores | apps/client/hooks/use-modal.ts:10-11 | two toggles restore any state |
| UseModal.OpenThenClose | apps/client/hooks/use-modal.ts:8-11 | from any state `onOpenChange` sets, `open` gives an open modal and `close` then a closed one |
| AdvancedFilter.ActiveFilterCount | apps/client/components/common/AdvancedFilter.tsx:48-56 | the count is at most the number of keys, and is zero exactly when no value is active |
| AdvancedFilter.CountAfterSet | apps/client/components/common/AdvancedFilter.tsx:48-61 | setting one field changes the count by that field's contribution only |
| AdvancedFilter.CountAfterRemove | apps/client/components/common/AdvancedFilter.tsx:48-56 | removing a field lowers the count by one exactly when the field was active |
| AdvancedFilter.FindOption | apps/client/components/common/AdvancedFilter.tsx:93 | `find` returns an option for that field, or none exists |
| AdvancedFilter.FindChoice | apps/client/components/common/AdvancedFilter.tsx:106 | `find` returns a choice with that value, or none exists |
| AdvancedFilter.ActiveFilterLabel | apps/client/components/common/AdvancedFilter.tsx:92-111 | a badge exists only for an active field that has an option |
| AdvancedFilter.PlainLabelIffActive | apps/client/components/common/AdvancedFilter.tsx:92-111 | for a field that is not a select with choices, a badge exists exactly when the field is active |
| AdvancedFilter.UnknownChoiceHasNoLabel | apps/client/components/common/AdvancedFilter.tsx:105-108 | a select value that is none of the choices gets no badge |
| AdvancedFilter.LabelStartsWithOptionLabel | apps/client/components/common/AdvancedFilter.tsx:98-110 | every badge starts with "option label: " |
| AdvancedFilter.RangeAfter | apps/client/components/common/AdvancedFilter.tsx:63-71 | one side of the range takes the new value and the other is kept, or "" when there was no range |
| AdvancedFilter.FilterPanel.constructor | apps/client/components/common/AdvancedFilter.tsx:45-46 | draft and committed filters start as the given filters, closed |
| AdvancedFilter.FilterPanel.HandleFilterChange | apps/client/components/common/AdvancedFilter.tsx:58-61 | only the draft's field changes |
| AdvancedFilter.FilterPanel.SelectValueChange | apps/client/components/common/AdvancedFilter.tsx:159 | choosing "__all__" stores `undefined`, anything else the chosen string |
| AdvancedFilter.FilterPanel.HandleDateRangeChange | apps/client/components/common/AdvancedFilter.tsx:63-71 | the draft's field becomes the range with one side changed |
| AdvancedFilter.FilterPanel.HandleApply | apps/client/components/common/AdvancedFilter.tsx:73-76 | the parent receives the draft unchanged, and the popover closes |
| AdvancedFilter.FilterPanel.HandleClear | apps/client/components/common/AdvancedFilter.tsx:78-83 | draft and committed filters become empty, so the count is zero |
| AdvancedFilter.FilterPanel.HandleRemoveFilter | apps/client/components/common/AdvancedFilter.tsx:85-90 | exactly one key leaves the draft, the others are kept, and the whole draft is committed |
| AdvancedFilter.RemoveCommitsPendingEdits | apps/client/components/common/AdvancedFilter.tsx:58-90 | removing a badge also commits an edit that was never applied |
| DataTable.KeysOf | apps/client/components/common/DataTable.tsx:72-74 | the key set holds exactly the keys of the rows |
| DataTable.DistinctKeysCount | apps/client/components/common/DataTable.tsx:124-126 | with distinct keys there are as many keys as rows |
| DataTable.Toggled | apps/client/components/common/DataTable.tsx:52-59 | exactly the key's membership flips |
| DataTable.ToggleTwice | apps/client/components/common/DataTable.tsx:53-58 | toggling a key twice restores the selection |
| DataTable.SelectedRows | apps/client/components/common/DataTable.tsx:60-64 | `onSelect` receives the rows whose key is selected |
| DataTable.HeaderCheckedIffAllSelected | apps/client/components/common/DataTable.tsx:124-126 | with distinct keys and every selected key a key of the current rows, the header checkbox is checked exactly when the table is non-empty and every row is selected |
| DataTable.SelectionTable.constructor | apps/client/components/common/DataTable.tsx:45-50 | nothing is selected at first |
| DataTable.SelectionTable.SetData | apps/client/components/common/DataTable.tsx:39-50 | a new `data` prop replaces the rows and keeps the `selected` state unchanged |
| DataTable.SelectionTable.ToggleSelect | apps/client/components/common/DataTable.tsx:52-65 | the selection is toggled at the key, and `onSelect` receives the selected rows in table order |
| DataTable.SelectionTable.ToggleSelectAll | apps/client/components/common/DataTable.tsx:67-76 | a selection as large as the table is cleared; otherwise every key is selected and every row emitted |
| DataTable.SelectAllTwice | apps/client/components/common/DataTable.tsx:67-76 | on a non-empty table "select all" checks the header, and a second click clears the selection |
| DataTable.StaleSelectionChecksHeader | apps/client/components/common/DataTable.tsx:124-126 | select row "1" of "1", "2", "3", then narrow the rows to "2": the header is checked while row "2" is unselected, and clicking it emits no rows |
| DataTable.ColSpanAsWritten | apps/client/components/common/DataTable.tsx:100-103 | the span as written covers the header row, and is exact unless only a selection column is shown |
| DataTable.ColSpanOvershootsSelectOnly | apps/client/components/common/DataTable.tsx:146-148 | with three columns and only `onSelect`, the span is 5 while the header has 4 cells |
| DataTable.ColSpan | apps/client/components/common/DataTable.tsx:84-94 | the corrected span equals the number of header cells, and agrees with the span as written except in the select-only case |
| FlowBuilder.InitialFlowConnected | apps/client/components/chatbot/chatbot-flow-builder.tsx:36-50 | the initial flow has one node and its edges are attached |
| FlowBuilder.DefaultData | apps/client/components/chatbot/chatbot-flow-builder.tsx:71-87 | message, condition and any other type get their own default data |
| FlowBuilder.AddNode | apps/client/components/chatbot/chatbot-flow-builder.tsx:63-91 | exactly one node is appended, with the type's default data; existing nodes, edges and the selection are kept |
| FlowBuilder.AddNodeKeepsEdgesConnected | apps/client/components/chatbot/chatbot-flow-builder.tsx:63-91 | adding a node keeps every edge attached |
| FlowBuilder.DeleteNode | apps/client/components/chatbot/chatbot-flow-builder.tsx:93-99 | exactly the nodes with that id go, exactly the edges touching it go, and the selection is cleared |
| FlowBuilder.DeleteNodeKeepsOrder | apps/client/components/chatbot/chatbot-flow-builder.tsx:94-97 | the surviving nodes and edges keep their order |
| FlowBuilder.DeleteNodeKeepsEdgesConnected | apps/client/components/chatbot/chatbot-flow-builder.tsx:93-99 | if every edge was attached before a delete, every edge is attached after it |
| FlowBuilder.Merged | apps/client/components/chatbot/chatbot-flow-builder.tsx:109 | new keys overwrite and the other keys are kept |
| FlowBuilder.UpdateNodeData | apps/client/components/chatbot/chatbot-flow-builder.tsx:105-111 | only nodes with the id change, by merging; count, order, edges and the panel's node are unchanged |
| FlowBuilder.UpdateKeepsEdgesConnected | apps/client/components/chatbot/chatbot-flow-builder.tsx:105-111 | updating data never detaches an edge |
| FlowBuilder.LastUpdateWins | apps/client/components/chatbot/chatbot-flow-builder.tsx:105-111 | of two updates to the same field, the later value wins |
| FlowBuilder.HandleUpdate | apps/client/components/chatbot/chatbot-flow-builder.tsx:217-220 | a one-field update of the panel's node; other nodes are unchanged |
| FlowBuilder.KeystrokesLoseEarlierCharacters | apps/client/components/chatbot/chatbot-flow-builder.tsx:236-239 | typing "ab" into the label "X" leaves "Xb" |
| FlowBuilder.UpdateNodeDataSynced | apps/client/components/chatbot/chatbot-flow-builder.tsx:105-111 | the corrected update changes the list as before and refreshes the panel's node |
| FlowBuilder.SyncedKeystrokesAppend | apps/client/components/chatbot/chatbot-flow-builder.tsx:236-239 | with the panel refreshed, everything typed is appended to the field |
| FlowBuilder.TypeSynced | apps/client/components/chatbot/chatbot-flow-builder.tsx:236-239 | typing keeps a node in the panel |
| FlowBuilder.SyncedKeystrokesReachList | apps/client/components/chatbot/chatbot-flow-builder.tsx:105-111 | with the panel refreshed, both typed characters reach the node in the list |
| Dates.WithinClosedRange | apps/client/app/dashboard/contacts/page.tsx:123-138 | with both sides valid, the range holds exactly the instants from `from` to the end of the `to` day, both included |
| Dates.OpenSide | apps/client/app/dashboard/contacts/page.tsx:126-137 | an empty or invalid side constrains nothing |
| ListPages.EqualityFilterCases | apps/client/app/dashboard/contacts/page.tsx:119-120 | an unset or empty select filter passes all records, otherwise only equal values; a range passes none |
| ListPages.MatchesDate | apps/client/components/inbox/inbox-view.tsx:164-179 | the flag computed by the checks equals the date-filter predicate |
| ListPages.DateFilterCases | apps/client/components/inbox/inbox-view.tsx:164-179 | on a present date a range keeps exactly the dates within it; other values, and a missing date, keep the record |
| ListPages.NextId | apps/client/app/dashboard/contacts/page.tsx:156 | `String(length + 1)` is a non-empty digit string |
| ListPages.NumberedAppend | apps/client/app/dashboard/groups/page.tsx:52-58 | appending with the next id keeps ids "1".."n" numbered |
| ListPages.NumberedIdsDistinct | apps/client/app/dashboard/groups/page.tsx:52-58 | numbered ids are distinct |
| ListPages.NextIdFreshWhenNumbered | apps/client/app/dashboard/contacts/page.tsx:156 | on a numbered list the next id is not taken |
| ListPages.MaxNumericId | apps/client/app/dashboard/contacts/page.tsx:156 | bounds the value of every all-digit id |
| ListPages.FreshId | apps/client/app/dashboard/contacts/page.tsx:156 | the corrected id is a digit string not in the list |
| ListPages.FreshIdOnNumbered | apps/client/app/dashboard/contacts/page.tsx:156 | on a numbered list the corrected id equals `String(length + 1)` |
| InboxView.MatchConversation | apps/client/components/inbox/inbox-view.tsx:137-183 | the callback's flags compute exactly the five tests: search, tab, unread, online and date |
| InboxView.FilteredConversations | apps/client/components/inbox/inbox-view.tsx:137-183 | a conversation is listed exactly when it passes all five tests |
| InboxView.NoFiltersListsAll | apps/client/components/inbox/inbox-view.tsx:137-183 | an empty search on "all" without filters lists every conversation in order |
| InboxView.GroupsIgnoreOnlineFilter | apps/client/components/inbox/inbox-view.tsx:154-161 | a group conversation passes whatever the online filter is |
| InboxView.UnknownPresenceHidden | apps/client/components/inbox/inbox-view.tsx:154-161 | an individual conversation with unknown presence is hidden by both "online" and "offline" |
| InboxView.UnreadFiltersSplit | apps/client/components/inbox/inbox-view.tsx:146-151 | each conversation passes exactly one of "has-unread" and "no-unread" |
| InboxView.MissingTimeIgnoresDateRange | apps/client/components/inbox/inbox-view.tsx:164-179 | a conversation without a last-message time is never hidden by the range |
| ContactsPage.MatchContact | apps/client/app/dashboard/contacts/page.tsx:110-150 | the callback computes exactly search, status, date and email tests |
| ContactsPage.FilteredContacts | apps/client/app/dashboard/contacts/page.tsx:110-150 | a contact is listed exactly when it passes all the tests |
| ContactsPage.NoFiltersListsAll | apps/client/app/dashboard/contacts/page.tsx:110-150 | an empty search without filters lists every contact |
| ContactsPage.EmailFilterIgnoresCase | apps/client/app/dashboard/contacts/page.tsx:141-146 | the email filter ignores the case of what was typed |
| ContactsPage.HandleAdd | apps/client/app/dashboard/contacts/page.tsx:152-164 | without name or phone nothing changes. Otherwise one "Active" contact with id `String(length + 1)` is appended, the form is emptied and the modal closes |
| ContactsPage.HandleEdit | apps/client/app/dashboard/contacts/page.tsx:166-173 | the form takes the contact's fields, the modal opens, and the list is unchanged |
| ContactsPage.HandleDelete | apps/client/app/dashboard/contacts/page.tsx:175-177 | exactly the contacts with that id go |
| ContactsPage.AddKeepsNumbering | apps/client/app/dashboard/contacts/page.tsx:152-164 | before any delete, adds keep ids numbered and distinct |
| ContactsPage.DeleteThenAddRepeatsId | apps/client/app/dashboard/contacts/page.tsx:152-177 | ids 1, 2, 3; delete "1"; add: two contacts have the id "3" |
| ContactsPage.HandleAddFreshId | apps/client/app/dashboard/contacts/page.tsx:152-164 | the corrected add appends the contact with a fresh id |
| ContactsPage.AddFreshIdKeepsIdsUnique | apps/client/app/dashboard/contacts/page.tsx:152-164 | the corrected add keeps ids unique after any deletes |
| ContactsPage.DeleteKeepsIdsUnique | apps/client/app/dashboard/contacts/page.tsx:175-177 | deleting keeps ids unique |
| ContactsPage.FreshIdAgreesWhileNumbered | apps/client/app/dashboard/contacts/page.tsx:152-164 | before any delete, the corrected add is the add as written |
| CampaignsPage.MatchCampaign | apps/client/app/dashboard/campaigns/page.tsx:137-183 | the callback computes exactly the search, select and schedule tests |
| CampaignsPage.FilteredCampaigns | apps/client/app/dashboard/campaigns/page.tsx:137-183 | a campaign is listed exactly when it passes all the tests |
| CampaignsPage.NoFiltersListsAll | apps/client/app/dashboard/campaigns/page.tsx:137-183 | an empty search without filters lists every campaign |
| CampaignsPage.UnparsableScheduleIgnoresRange | apps/client/app/dashboard/campaigns/page.tsx:157-173 | a schedule that is not a date, such as "Immediate", is never hidden by the range |
| CampaignsPage.HandleCreate | apps/client/app/dashboard/campaigns/page.tsx:185-208 | without name, template or group nothing changes. Otherwise one campaign is appended, and the form resets to its defaults (throttle "100", retries "3") with the modal closed |
| CampaignsPage.CreatedCampaign | apps/client/app/dashboard/campaigns/page.tsx:187-197 | the new campaign has the form's fields and 0 of 0 sent. It is "Scheduled" exactly when a date was given, else "Draft"; its schedule is "Immediate" when none was given |
| CampaignsPage.CreateKeepsNumbering | apps/client/app/dashboard/campaigns/page.tsx:185-208 | creates keep ids numbered and distinct |
| TemplatesPage.FilteredTemplates | apps/client/app/dashboard/templates/page.tsx:120-141 | a template is listed exactly when the title or body matches and the three selects pass |
| TemplatesPage.NoFiltersListsAll | apps/client/app/dashboard/templates/page.tsx:120-141 | an empty search without filters lists every template |
| TemplatesPage.StatusFilterSelects | apps/client/app/dashboard/templates/page.tsx:128-129 | with a status chosen only templates of that status are listed |
| TemplatesPage.DetectVariables | apps/client/app/dashboard/templates/page.tsx:173-176 | one whole match `{{w}}` per placeholder found, in order |
| TemplatesPage.DetectVariablesSpec | apps/client/app/dashboard/templates/page.tsx:173-176 | `{{w}}` is reported exactly when w is a non-empty word and `{{w}}` occurs in the text |
| TemplatesPage.NoBracesNoVariables | apps/client/app/dashboard/templates/page.tsx:174-175 | a body without `{{` gives the empty list |
| TemplatesPage.RepeatedVariableReportedTwice | apps/client/app/dashboard/templates/page.tsx:174-175 | duplicates are kept |
| TemplatesPage.HandleCreate | apps/client/app/dashboard/templates/page.tsx:143-154 | without title or body nothing changes. Otherwise one template is appended, the form resets and the modal closes |
| TemplatesPage.CreatedTemplate | apps/client/app/dashboard/templates/page.tsx:145-152 | the new template has the form's fields, the next id and the status "Pending" |
| TemplatesPage.CreateKeepsNumbering | apps/client/app/dashboard/templates/page.tsx:143-154 | creates keep ids numbered and distinct |
| TemplatesPage.Variations | apps/client/app/dashboard/templates/page.tsx:156-164 | three variations, each containing the intent |
| TemplatesPage.HandleGenerateAI | apps/client/app/dashboard/templates/page.tsx:156-164 | only the variations change |
| TemplatesPage.HandleSelectVariation | apps/client/app/dashboard/templates/page.tsx:166-171 | only the form's body changes; the variations are cleared and the AI modal gives way to the create modal |
| TemplatesPage.GenerateSelectCreate | apps/client/app/dashboard/templates/page.tsx:143-171 | generating, picking and creating adds a template whose body contains the intent |
| GroupsPage.HandleCreate | apps/client/app/dashboard/groups/page.tsx:50-62 | without a name nothing changes. Otherwise one group is appended after the unchanged groups, the form resets to "" and static, and the modal closes |
| GroupsPage.CreatedGroup | apps/client/app/dashboard/groups/page.tsx:52-57 | the new group has the form's name and type, no contacts, today's date and the next id |
| GroupsPage.CreateKeepsNumbering | apps/client/app/dashboard/groups/page.tsx:50-62 | creates keep ids numbered and distinct |
| ChatWindow.InitialMessages | apps/client/components/inbox/chat-window.tsx:94-96 | the stored list for the conversation, or empty |
| ChatWindow.Open | apps/client/components/inbox/chat-window.tsx:93-96 | the window opens with an empty input and the stored messages of the conversation, or none |
| ChatWindow.HandleSend | apps/client/components/inbox/chat-window.tsx:98-112 | a blank input changes nothing. Otherwise the untrimmed text is appended as a sent text message from "me", and the input is cleared |
| ChatWindow.SetStatus | apps/client/components/inbox/chat-window.tsx:116-129 | only messages with the id take the new status |
| ChatWindow.LaterStatusWins | apps/client/components/inbox/chat-window.tsx:116-129 | "read" after "delivered" is "read" |
| ChatWindow.UnknownIdUnchanged | apps/client/components/inbox/chat-window.tsx:116-129 | an unknown id changes nothing |
| ChatWindow.SendDeliverRead | apps/client/components/inbox/chat-window.tsx:98-131 | after sending and both updates, earlier messages are unchanged and the new message is last, read, and carries the typed text |

## Left out

- DataTable.HeaderCheckedIffAllSelected: holds only while every selected key is a key of the current rows. The source never prunes `selected` when the `data` prop changes, for example when a list page filters its rows, and DataTable.SelectionTable.SetData keeps it too. After such a change the header can be checked with a row unselected, as DataTable.StaleSelectionChecksHeader shows.
- bcrypt, `randomBytes`, `Math.random`, JWT signing, `Date.now` and the database's id generation are parameters of the auth service. The Prisma queries are map operations on the store.
- Concurrency is not modelled: the check-then-create race in `register`, and concurrent `verifyEmail` calls.
- `updatedAt` auto-refresh is not modelled: Prisma's `@updatedAt` is not written by the updates.
- AuthService.AuthService.VerifyEmail: the `findFirst` choice is "some matching account". Which account wins when two accounts hold the same code is not modelled. The single-use and sign-up lemmas assume a code held by at most one account.
- `console.log` output, toasts and `setTimeout` delays are not modelled. Toasts become outcome values.
- The DOM `focus()` calls of the one-time-code input are modelled only by the index of the cell they target (`focused`), not by browser focus.
- The `onClear` callback of the filter panel is not modelled as a call of its own. Both pages that pass it only empty the filters, and `onFiltersChange({})` has already done that.
- JavaScript `Date` parsing, time zones and `setHours(23, 59, 59, 999)` are a `Calendar` parameter: a parse function and an end-of-day function.
- `toLowerCase` is modelled on ASCII letters only.
- InputOtp.OtpInput.HandleChange: strings here are sequences of Unicode scalar values, not UTF-16 code units, and the same holds for InputOtp.InitialCells, InputOtp.Clip, InputOtp.Pasted and InputOtp.OtpInput.SyncValue. A character outside the Basic Multilingual Plane (U+10000 and above) is one character here but two code units in the source's `length`, `slice` and `split("")`. So one such character typed into a cell is ignored here, while the source takes the paste branch, emits the joined cells and moves focus. The contracts describe the source only for input in the Basic Multilingual Plane.
- The regular expressions are scanners written by hand for their two shapes. `$` patterns in replacement strings are not interpreted: a parameter value containing `$&` or `$1` is inserted literally in the model.
- Floating-point positions of flow nodes are `real`s: `Math.random() * 500 + 100` is exact.
- AdvancedFilter.FilterPanel.HandleDateRangeChange: a field holding a string rather than a range starts from an empty range. The source spreads the string's characters into the object.
- Node ids from `Date.now()` in the flow builder and the chat window are parameters. ChatWindow.SendDeliverRead assumes the id is fresh.
- Display-only fields are not modelled: avatars, participants, phone numbers of conversations, header, footer and buttons of templates.
- `unreadCount` is a natural number.
- The AI prompt's tone, type and language do not affect the variations, as in the source.
- reactflow's `addEdge`, `onNodesChange` and `onEdgesChange` are library calls and are not modelled.

## Findings

| source | as written | input that shows it | evidently intended | confidence | as-written member | corrected member |
|---|---|---|---|---|---|---|
| apps/client/components/common/DataTable.tsx:100-103 | the placeholder rows span `columns + 2` when any handler is given | three columns and only `onSelect`: span 5, header 4 cells | span the header: one cell for a selection column and one for a menu column | not executed | DataTable.ColSpanOvershootsSelectOnly | DataTable.ColSpan |
| apps/client/components/chatbot/chatbot-flow-builder.tsx:236-239 | the panel shows the node captured on click, which `updateNodeData` does not refresh | label "X", type "a" then "b": the label becomes "Xb" | each keystroke extends the current label | not executed | FlowBuilder.KeystrokesLoseEarlierCharacters | FlowBuilder.SyncedKeystrokesAppend |
| apps/client/app/dashboard/contacts/page.tsx:156 | a new contact's id is `String(contacts.length + 1)` | contacts "1", "2", "3"; delete "1"; add: two contacts have id "3" | an id no other contact has | not executed | ContactsPage.DeleteThenAddRepeatsId | ContactsPage.AddFreshIdKeepsIdsUnique |
