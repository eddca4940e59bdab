# Work-hours tracker: the entry list of the `Home` page

This project models the entry-list tracker of the work-hours tracker's
single page (`src/app/page.js`). The page keeps an ordered list of time
entries, each made of an employee name, a date, a number of hours and a task
description, all as the strings the form inputs deliver. It also keeps the
four form fields a new entry is typed into. Three buttons change the list:
"Add Entry" validates the form and appends an entry, "Clear All Entries"
empties the list, and each row's delete button removes the row at its
position. The list is read from browser storage when the page mounts and is
written back in full whenever it changes.

The model is one Dafny module, `WorkHoursTracker` (`home.dfy`):

- `Entry` is the record of one row and `Status` is the outcome a handler
  reports, in place of its notification (`Success`, `Warning`, `Info`,
  `Deleted`).
- `FilterIndex` is the positional filter the delete handler uses. Three
  lemmas say what it means: one for a position outside the list, one for a
  position inside it (as slices and element by element), and one for the
  multiset of what remains.
- The class `Home` holds the page state: `entries`, the four form fields and
  `saved`, the copy of the list in storage. `Valid()` says that storage
  mirrors the list. The constructor is the mount, `Persist` is the write-back
  effect, the four `Set…` methods are the inputs' change handlers, and
  `AddEntry`, `ClearEntries` and `DeleteEntry` are the three button handlers.
- `Reload` and the `Example…` methods are clients of the class. They show what
  its contracts give a caller: a reload restores the list, and the concrete
  add, reject, delete and clear scenarios end as stated.

JavaScript's `!x` on a string is true only for the empty string, so the
model's validation (`Falsy`, `FormComplete`) rejects only empty fields. A
name of one space or an hours value of `"0"` passes.

Storage is the field `saved`, not a key-value store or JSON text. Writing a
list of entries and reading it back gives the same list, so `saved` holds the
list itself. At mount, `stored` is `None` when storage has no item under
`"hoursTracking"` or the item reads back as `null`; `JSON.parse(…) || []` then
yields the empty list.

The page only ever passes a row's current position to the delete handler
(`src/app/page.js:170`), but the handler filters by position
(`src/app/page.js:80`), so an index outside the list removes nothing.
`DeleteEntry` accepts any integer index and says what happens in both cases.

## Model

| member | source | states |
|---|---|---|
| `WorkHoursTracker.FilterIndex` | src/app/page.js:80 | the positional filter is one shorter than its input exactly when the index is a position of the input, and otherwise has the input's length |
| `WorkHoursTracker.FilterIndexOutside` | src/app/page.js:80 | filtering on a negative index or one at or past the end returns the list unchanged |
| `WorkHoursTracker.FilterIndexRemoves` | src/app/page.js:79-81 | filtering on a position of the list yields `s[..i] + s[i+1..]`: the elements before `i` keep their positions and the ones after it move up by one |
| `WorkHoursTracker.FilterIndexMultiset` | src/app/page.js:79-81 | filtering on a position removes exactly one occurrence of the element at that position and keeps all others, equal copies included |
| `WorkHoursTracker.Falsy` | src/app/page.js:46 | JavaScript's `!x` on a string value: true exactly on the empty string |
| `WorkHoursTracker.Home.FormComplete` | src/app/page.js:46 | the negation of the four-way test: all four form fields are non-empty |
| `WorkHoursTracker.Home.Valid` | src/app/page.js:39-43 | storage holds the in-memory list |
| `WorkHoursTracker.Home.constructor` | src/app/page.js:25-43 | at mount the list is the stored list, or empty when nothing is stored; the four form fields are empty; storage then mirrors the list |
| `WorkHoursTracker.Home.Persist` | src/app/page.js:39-43 | storage is overwritten with the whole current list |
| `WorkHoursTracker.Home.SetEmployeeName` | src/app/page.js:108 | the employee-name field takes the typed value and nothing else changes |
| `WorkHoursTracker.Home.SetDate` | src/app/page.js:116 | the date field takes the entered value and nothing else changes |
| `WorkHoursTracker.Home.SetHours` | src/app/page.js:124 | the hours field takes the entered value and nothing else changes |
| `WorkHoursTracker.Home.SetTask` | src/app/page.js:132 | the task field takes the typed value and nothing else changes |
| `WorkHoursTracker.Home.AddEntry` | src/app/page.js:45-67 | with all four fields non-empty: reports success, appends exactly the entry built from the four fields after the unchanged earlier entries, empties all four fields and saves; with any field empty: reports a warning and leaves the list, the storage and all four fields unchanged |
| `WorkHoursTracker.Home.ClearEntries` | src/app/page.js:69-77 | the list becomes empty whatever it held, storage mirrors it, the status is info and the form fields are untouched |
| `WorkHoursTracker.Home.DeleteEntry` | src/app/page.js:79-88 | the list becomes the positional filter of the old list; for an index in range that is the old list without that position, order kept; for any other index the list is unchanged; storage mirrors it and the form is untouched |
| `WorkHoursTracker.Reload` | src/app/page.js:34-43 | reopening the page from the storage left by any sequence of handlers mounts a new page object that holds the same list, with an empty form, on a page whose storage again mirrors its list, so every handler can be used on it |
| `WorkHoursTracker.ExampleAddOneRow` | src/app/page.js:45-67 | adding Ann / 2024-05-01 / 8 / QA to an empty page succeeds and yields exactly that one-row list |
| `WorkHoursTracker.ExampleMissingTask` | src/app/page.js:45-54 | adding with the task empty warns, leaves the list empty and keeps the typed name |
| `WorkHoursTracker.ExampleOnlyEmptinessChecked` | src/app/page.js:46 | a name of one space and an hours value of "0" pass validation and are stored as typed |
| `WorkHoursTracker.ExampleReloadThenAdd` | src/app/page.js:34-67 | a row added before a reload is still there after it, and a row added on the reopened page goes after it |
| `WorkHoursTracker.ExampleDeleteAndClear` | src/app/page.js:69-88 | deleting position 0 of [A, B, A] gives [B, A]; deleting a position past the end changes nothing; clearing empties both the list and the storage |

## Left out

- Rendering, table layout and styling (src/app/page.js:90-186): this is user interface. Only the wiring of each input to its field is kept, as the `Set…` methods.
- Notification title, duration, closability and colour: these are user interface, so each handler only returns its `Status` tag. Delete shows its toast in the "error" style; the model names the tag `Deleted`.
- `localStorage`, `JSON.parse` and `JSON.stringify`: these are browser I/O and library serialisation. Storage is the field `saved`. Storage is assumed to hold what this page wrote to it: stored text that is not valid JSON (which makes `JSON.parse` throw at mount), JSON that is not an array of entries, and other falsy JSON values such as `0`, `false` or `""` (which `|| []` also turns into the empty list) are not modelled.
- React effect scheduling and the `typeof window` guard: these are framework runtime behaviour. One result is left out: on mount, the write-back effect first runs with the initial empty list before the loaded list is set. In a production build that write is overwritten by the next one, so the model keeps only the settled state, in which storage holds the loaded list.
- React's batching of state updates: every handler is modelled as one atomic step on the current state.
- `WorkHoursTracker.Home.DeleteEntry` takes an integer index. The JavaScript `!==` comparison against a non-integer or non-number index, which also removes nothing, is not modelled because the page only passes row positions.
- The browser's handling of the `date` and `number` input types: the model accepts any string a field may hold.
- src/app/ChakraProvider.js and src/app/layout.js are not part of this model: they hold a theme and the root layout, with no logic.
- The calendar variant, its month navigation, weekly and monthly hour sums, the weekend lock and login sessions are not in the files modelled here, so they are not part of this model.
