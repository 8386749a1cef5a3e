# MyPlanner view model, in Dafny

A model of the planner's Knockout view model (`js/app.js`): the ordered list of
plans, the new-plan input box and the filter mode, the commands that change them
(`add`, `remove`, `removeCompleted`, `editPlan`, `saveEditing`, `cancelEditing`),
the computed views over them (`filteredPlans`, `completedCount`,
`remainingCount`, the read/write `allCompleted`, `getLabel`), construction of the
view model from the saved plans, and the key-code check of the Enter/Escape
bindings.

Observables become plain fields of immutable values: a `Plan` is a datatype, the
view model is a `Store`, every command is a pure function from store to store and
every computed value is a function of the store. A plan's object identity, which
`remove` and the per-plan commands rely on, is an explicit `id`. The store counts
the identities handed out (`nextId`), so `add` gives every new plan one that no
plan, present or removed, ever had; every command keeps identities unique and below
the counter (`Valid`).

Files, one module each:

- `wrappers.dfy` (`Wrappers`): `Option`, for `undefined`/`null`.
- `seqs.dfy` (`Seqs`): order-preserving `Filter` and the subsequence relation.
- `text.dfy` (`Text`): JavaScript's `String.prototype.trim`, with the ECMAScript
  white-space and line-terminator characters.
- `plans.dfy` (`Plans`): `Plan`, `Store`, identities.
- `views.dfy` (`Views`): the computed values.
- `commands.dfy` (`Commands`): the commands, and the round trips between them.
- `load.dfy` (`Load`): the constructor and start-up.
- `keys.dfy` (`Keys`): the key-filtered bindings.

Quirks of the code and how the model treats them:

- `editPlan` sets `previousTitle` and neither `saveEditing` nor `cancelEditing`
  clears it, so a plan keeps its remembered title after editing ends;
  `cancelEditing` on a plan that was never edited would write `undefined` into
  its title, so the model requires a remembered title there.
- `add` takes no argument; it reads the input box `current`.
- On start-up, a missing snapshot (`null` from the parser) falls back to the empty
  list through `plans || []`; the model takes the parser's result as an `Option`.
- `new Plan(current)` leaves `completed` `undefined`; every reader of it tests
  truthiness, so it is modelled as `false`.

## Model

| member | source | states |
|---|---|---|
| Text.Trim | js/app.js:89 | the trimmed string has no white space at either end and is a slice of the input cut out by dropping white space only |
| Text.TrimUnique | js/app.js:119 | any slice with non-white ends obtained by dropping white space only is the trim, so the contract of Trim fixes it |
| Text.TrimEmptyIff | js/app.js:128 | the trimmed title is empty exactly when the title is all white space |
| Text.TrimIdempotent | js/app.js:119 | trimming an already trimmed title changes nothing |
| Text.TrimOfTrimmed | js/app.js:124 | a title without white space at its ends is equal to its trimmed form, so no write happens |
| Plans.NewPlan | js/app.js:54-58 | a new plan has the given title, is not completed, is not being edited and has no previous title |
| Plans.IndexOf | js/app.js:109-137 | finds the plan with a given identity, or reports that no plan has it |
| Plans.SubseqUniqueIds | js/app.js:103-105 | a list obtained by dropping plans keeps identities unique |
| Views.ActivePlans | js/app.js:74-77 | the active view holds exactly the plans not completed, in list order |
| Views.CompletedPlans | js/app.js:78-81 | the completed view holds exactly the completed plans, in list order |
| Views.ActiveCompletedPartition | js/app.js:72-85 | the active and completed views together hold every plan exactly once |
| Views.FilteredPlans | js/app.js:72-85 | mode "active" shows the non-completed plans, "completed" the completed ones, any other mode the whole list; always in list order |
| Views.FilteredSizesAreCounts | js/app.js:72-148 | the active view has remaining-count plans, the completed view completed-count plans, and together they are as long as the full list |
| Views.CompletedCount | js/app.js:140-144 | the count is at most the list length and is zero exactly when no plan is completed |
| Views.CompletedCountIsTally | js/app.js:140-144 | the completed count equals a plain tally of the completed plans |
| Views.RemainingCount | js/app.js:146-148 | the remaining count is the size of the active view and adds up with the completed count to the list length |
| Views.AllCompleted | js/app.js:150-154 | reads true exactly when every plan is completed, so the empty list reads true |
| Views.WriteAllCompleted | js/app.js:156-161 | every plan gets `completed` equal to the written value, nothing else changes, and the completed count becomes the list length or zero |
| Views.WriteThenReadAllCompleted | js/app.js:150-161 | after writing a value, the flag reads that value, except that an empty list reads true |
| Views.GetLabel | js/app.js:164-166 | the label is "plan" exactly for a count of one and "plans" for every other count |
| Commands.Add | js/app.js:88-94 | with text left after trimming, exactly one plan with the trimmed title and a never-used identity is appended, not completed and not being edited, and the input box is cleared; otherwise nothing changes |
| Commands.Remove | js/app.js:97-99 | the plans left are exactly those without the given identity, in order; an absent plan is a no-op |
| Commands.RemoveCutsOne | js/app.js:98 | with unique identities, removing a listed plan cuts out exactly its slot |
| Commands.AddKeepsRemovedGone | js/app.js:91-98 | a new plan never takes the identity of a removed one, so removing a plan already gone stays a no-op after adds |
| Commands.RemoveAddRemove | js/app.js:88-99 | remove a plan, add one, remove the first plan again: the second remove changes nothing |
| Commands.AddThenRemove | js/app.js:88-99 | removing the plan just added gives back the earlier list |
| Commands.RemoveCompleted | js/app.js:102-106 | exactly the plans not completed remain, in order; their number is the remaining count and none is completed |
| Commands.RemoveCompletedIdempotent | js/app.js:102-106 | clearing completed plans twice is the same as clearing them once |
| Commands.EditPlan | js/app.js:109-112 | the plan enters edit mode and remembers its current title; no other plan changes |
| Commands.SetTitle | js/app.js:55 | a write into the title of one plan changes that title only |
| Commands.SetTitlesTouchOnlyTitle | js/app.js:55 | any number of title writes into one plan change only its title, not its place, edit state or the other plans |
| Commands.SaveEditing | js/app.js:115-131 | saving a plan not in the list changes nothing; the input box and filter are untouched and identities stay unique |
| Commands.SaveEditingCommits | js/app.js:115-127 | a title with text keeps the plan in place, out of edit mode, with its title trimmed; an already trimmed title is kept unchanged |
| Commands.SaveEditingRemovesBlank | js/app.js:128-130 | a blank title removes the plan and keeps the others in order |
| Commands.SaveEditingBlankIsRemove | js/app.js:128-130 | saving a plan with a blank title leaves exactly the list that removing the plan leaves |
| Commands.SaveEditingRemovesIff | js/app.js:115-131 | the plan leaves the list exactly when its trimmed title is empty |
| Commands.CancelEditing | js/app.js:134-137 | the plan leaves edit mode and gets back the title it had when editing began; nothing else changes |
| Commands.EditCancelRoundTrip | js/app.js:109-137 | edit, any typing, cancel: the plan is as before (completed flag and title included), out of edit mode, apart from the remembered title, and no other plan changes |
| Commands.EditSaveRoundTrip | js/app.js:109-131 | edit then save of a plan with a tidy title leaves it as before, out of edit mode, apart from the remembered title |
| Load.FromRecord | js/app.js:64 | a loaded plan has the saved title and flag, is not being edited and has no previous title |
| Load.NewViewModel | js/app.js:61-70 | one plan per saved entry in saved order, with its title and flag, none being edited, identities unique; empty input box, mode "all" |
| Load.Startup | js/app.js:178-181 | a missing snapshot gives an empty list, a present one a plan per entry with its title and flag, in order; the input box is empty and the mode is "all" |
| Load.ToRecords | js/app.js:63-65 | the title and flag of each plan, in order |
| Load.LoadRoundTrip | js/app.js:63-65 | loading entries and reading back titles and flags gives the entries |
| Load.ReloadKeepsPlans | js/app.js:63-65 | reloading a store's plans keeps each title and flag in place and clears the edit state |
| Keys.OnKeyUp | js/app.js:16-20 | a key-up event runs the handler when its key code is the binding's, and does nothing otherwise |
| Keys.BindingsAreDisjoint | js/app.js:5-6 | the Enter binding fires on key code 13 only, the Escape binding on 27 only, never both on one event |

## Left out

- Knockout's observables, computed values and dependency tracking, and when
  Knockout notifies subscribers. The `title` write in `saveEditing` (made only when
  trimming changes the title) and the per-plan `completed` writes of the
  `allCompleted` setter are plain observable writes, which Knockout does not
  notify for an equal value; the model keeps only the values they leave.
- Saving to local storage (js/app.js:168-174): `ko.toJSON`, `localStorage` and the
  500 ms `rateLimit` debounce are I/O, a foreign library and timers. The saved
  text holds `editing` and `previousTitle` too; only the reading side, which
  keeps `title` and `completed`, is modelled (`Load.ToRecords`).
- Parsing the saved text (`ko.utils.parseJson`, js/app.js:178): a foreign call;
  its result is a parameter. A saved entry without `completed` reads as `false`,
  and one without `title` is not modelled. Saved text that is not valid JSON
  makes `ko.utils.parseJson` throw at start-up; that exception is not modelled,
  since the `Option` parameter only expresses a missing snapshot.
- `selectAndFocus` (js/app.js:38-51): DOM focus handling deferred with `setTimeout`.
- The event wiring of the key bindings (js/app.js:22-29), `ko.applyBindings` and
  the `Router` set-up (js/app.js:182-185): the model keeps only the key-code test;
  the router's writes to `showMode` are plain field updates of `Store`.
- The starting value of `current` (js/app.js:68) is `undefined`, and `add` on it
  throws a TypeError at `.trim()` (js/app.js:89); the model starts the input box as
  the empty string, so that error is not modelled.
- Views.GetLabel: takes an integer count; the strict comparison `=== 1` against a
  non-number is not modelled.
- Commands.CancelEditing: requires a remembered title (`editPlan` ran on the plan
  before); the program would write `undefined` into the title otherwise.
