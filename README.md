# ProyectoTableView in Dafny

A model of the logic under the JavaFX table demo `ProyectoTableView`:

- **The `Person` record** (`person.dfy`, module `PersonRecord`): four mutable
  fields (`personId`, `firstName`, `lastName`, `birthDate`), two constructors,
  setters, the birth-date and person validation that append fixed messages to
  a caller's error list, `save` and `toString`. The Java `List<String>` the
  checks append to is the class `ErrorList`. The rules themselves are stated
  as functions of the checked values (`PersonOk`, `PersonErrors`,
  `BirthDateOk`, `BirthDateErrors`). The methods are proved against those
  functions, and the lemmas prove what the rules mean.
- **The table's row operations** (`proyecto_table_view.dfy`, module
  `TableViewApp`): the class `ProyectoTableView` holds the table's item list
  and the three input fields. Its methods are `deleteSelectedRows`,
  `restoreRows`, `getPerson`, `addPerson` and `clearFields`. What a deletion
  must produce is defined on its own in `row_removal.dfy` (module
  `RowRemoval`): `Without(s, gone)` is `s` with exactly the positions in
  `gone` left out and the survivors in order. The deletion loop, which walks
  the sorted indices from last to first, is proved to produce it.
- **The seed list** (`person_table_util.dfy`, module `PersonTableUtil`):
  `SeedRows` is the five records as values. `GetPersonList` builds fresh
  `Person` objects holding them.
- **Java library stand-ins** (`java_lang.dfy`, `dates.dfy`): a null reference
  is `Option.None`. Java `int` is `int32`. `String.trim` strips every
  character at or below U+0020. `Integer.toString` is modelled too.
  `LocalDate` is a validated (year, month, day) triple ordered by
  `compareTo`/`isAfter`, and `LocalDate.toString` renders it as `yyyy-MM-dd`.

"Today" (`LocalDate.now()` in the Java code) is a parameter of every check.
The console output is returned instead of printed. `save` returns
`"Saved " + toString()`. `deleteSelectedRows` returns a flag for its "please
select a row" notice.

Behaviour kept as the code has it:

- The two-argument `isValidPerson(p, errorList)` checks `p`'s names but the
  receiver's own birth date (Person.java line 165).
  `PersonRecord.Person.IsValidPersonOf` does the same.
  `PersonRecord.ReceiverBirthDateQuirk` exhibits a receiver without a birth
  date that accepts a record born in the future, while that record rejects
  itself. The one-argument `isValidPerson` passes the receiver, so it is
  unaffected.
- The Javadoc of `personSequence` (Person.java:14-15) says it generates
  unique person ids. The code never reads it, and neither constructor sets
  `personId` (Person.java:32-34, 42-46). Every record therefore has id 0 until
  `setPersonId` is called. The model follows the code: `SeedRows` has id 0
  throughout, and restored rows are new objects with equal field values.
- After `clearFields` the inputs are null. Before any input they are the
  empty text of a new `TextField` and the null value of a new `DatePicker`
  (`ProyectoTableView.Start`).

## Model

| member | source | states |
|---|---|---|
| `JavaLang.Trim` | src/main/java/es/juliogtrenard/proyectotableview/Person.java:156 | the trimmed name is empty exactly when every character is at or below U+0020; otherwise it starts and ends with a character above U+0020 |
| `JavaLang.TrimIsSlice` | src/main/java/es/juliogtrenard/proyectotableview/Person.java:156 | the trimmed name is a slice of the name, and only characters at or below U+0020 lie before and after it |
| `JavaLang.BlankIffNoVisibleChar` | src/main/java/es/juliogtrenard/proyectotableview/Person.java:156-161 | a name counts as blank exactly when it is null or has no character above U+0020 |
| `JavaLang.IntTextRoundTrip` | src/main/java/es/juliogtrenard/proyectotableview/Person.java:191 | the decimal text of an `int` id reads back as the same id |
| `Dates.IsAfterStrictTotalOrder` | src/main/java/es/juliogtrenard/proyectotableview/Person.java:131 | `isAfter` is irreflexive and transitive, and two dates differ exactly when one is after the other |
| `Dates.IsAfterLexicographic` | src/main/java/es/juliogtrenard/proyectotableview/Person.java:131 | `isAfter` is the lexicographic order on (year, month, day) |
| `Dates.YearTextFourDigits` | src/main/java/es/juliogtrenard/proyectotableview/Person.java:191 | for years 0 to 9999 the year part of a printed date is four digits that read back as the year |
| `Dates.DateTextRoundTrip` | src/main/java/es/juliogtrenard/proyectotableview/Person.java:191 | for years 0 to 9999 a birth date prints as ten characters `yyyy-MM-dd` whose fields read back as the date's year, month and day |
| `PersonRecord.BirthDateErrorsIffInvalid` | src/main/java/es/juliogtrenard/proyectotableview/Person.java:127-136 | the birth-date check adds nothing when it passes, and adds exactly the one future-date message when it fails |
| `PersonRecord.PersonOkIffNoErrors` | src/main/java/es/juliogtrenard/proyectotableview/Person.java:153-169 | a person is valid exactly when no message is added |
| `PersonRecord.MessageIffCheckFails` | src/main/java/es/juliogtrenard/proyectotableview/Person.java:155-167 | each of the three messages is added exactly when its own check fails |
| `PersonRecord.ErrorsCountedAndOrdered` | src/main/java/es/juliogtrenard/proyectotableview/Person.java:154-167 | checking continues after a failure: one message per failed check, at most three, in the order first name, last name, birth date |
| `PersonRecord.WhitespaceNameRejected` | src/main/java/es/juliogtrenard/proyectotableview/Person.java:155-159 | a first name of only whitespace or control characters fails validation and adds the first-name message |
| `PersonRecord.PersonText` | src/main/java/es/juliogtrenard/proyectotableview/Person.java:190-192 | `toString` (used by `save`) starts with `[personId=` followed by the id's text and ends with `]` |
| `PersonRecord.PersonTextShowsId` | src/main/java/es/juliogtrenard/proyectotableview/Person.java:191 | the id written by `toString` reads back as the record's id |
| `PersonRecord.Person.Empty` | src/main/java/es/juliogtrenard/proyectotableview/Person.java:32-34 | the no-argument constructor leaves all three fields null and the id 0 |
| `PersonRecord.Person.constructor` | src/main/java/es/juliogtrenard/proyectotableview/Person.java:42-46 | the constructor stores the three given values and leaves the id at 0 |
| `PersonRecord.Person.SetPersonId` | src/main/java/es/juliogtrenard/proyectotableview/Person.java:60-62 | the id becomes the argument; no other field changes |
| `PersonRecord.Person.SetFirstName` | src/main/java/es/juliogtrenard/proyectotableview/Person.java:76-78 | the first name becomes the argument; no other field changes |
| `PersonRecord.Person.SetLastName` | src/main/java/es/juliogtrenard/proyectotableview/Person.java:92-94 | the last name becomes the argument; no other field changes |
| `PersonRecord.Person.SetBirthDate` | src/main/java/es/juliogtrenard/proyectotableview/Person.java:108-110 | the birth date becomes the argument; no other field changes |
| `PersonRecord.Person.IsValidBirthDate` | src/main/java/es/juliogtrenard/proyectotableview/Person.java:127-136 | a null date passes and a date on or before today passes, both leaving the list as it was; a date after today fails and appends the future-date message |
| `PersonRecord.Person.IsValidBirthDateQuiet` | src/main/java/es/juliogtrenard/proyectotableview/Person.java:117-119 | the one-argument overload gives the same verdict: valid exactly when the date is null or not after today |
| `PersonRecord.Person.IsValidPersonOf` | src/main/java/es/juliogtrenard/proyectotableview/Person.java:153-169 | valid exactly when `p`'s names are non-blank and the receiver's birth date passes; the list only grows, by the messages of the failed checks in order |
| `PersonRecord.Person.IsValidPerson` | src/main/java/es/juliogtrenard/proyectotableview/Person.java:143-145 | the same verdict and messages as the two-argument check applied to the receiver itself |
| `PersonRecord.Person.Save` | src/main/java/es/juliogtrenard/proyectotableview/Person.java:176-183 | saves exactly when the record is valid, printing `Saved ` and its text only then; adds the validation messages; changes no field |
| `PersonRecord.ReceiverBirthDateQuirk` | src/main/java/es/juliogtrenard/proyectotableview/Person.java:165 | a receiver with no birth date accepts a record born after today, which rejects itself |
| `PersonTableUtil.SeedRecordsWellFormed` | src/main/java/es/juliogtrenard/proyectotableview/PersonTableUtil.java:21-26 | five records, each with non-blank names and a birth date no later than 2012-10-11, the first one's date |
| `PersonTableUtil.SeedValidIffTodayNotBefore` | src/main/java/es/juliogtrenard/proyectotableview/PersonTableUtil.java:21-25 | every seed record passes validation exactly when today is on or after 2012-10-11 |
| `PersonTableUtil.GetPersonList` | src/main/java/es/juliogtrenard/proyectotableview/PersonTableUtil.java:20-27 | five new, pairwise distinct `Person` objects holding the seed values in order Ashwin, Advik, Layne, Mason, Babalu |
| `RowRemoval.WithoutNothing` | src/main/java/es/juliogtrenard/proyectotableview/ProyectoTableView.java:113-118 | removing no position leaves the list as it was |
| `RowRemoval.WithoutLength` | src/main/java/es/juliogtrenard/proyectotableview/ProyectoTableView.java:120-129 | removing a set of in-range positions shortens the list by the size of the set |
| `RowRemoval.RemoveBelowRemoved` | src/main/java/es/juliogtrenard/proyectotableview/ProyectoTableView.java:126-128 | when every position already removed lies above `k`, removing the element now at `k` is in range and removes original position `k` |
| `RowRemoval.Sort` | src/main/java/es/juliogtrenard/proyectotableview/ProyectoTableView.java:124 | sorting returns a permutation of the indices (same multiset) in non-decreasing order, and puts distinct indices in strictly ascending order |
| `RowRemoval.AscendingUnique` | src/main/java/es/juliogtrenard/proyectotableview/ProyectoTableView.java:124 | an ascending index sequence is determined by its set of elements |
| `RowRemoval.SortIgnoresSelectionOrder` | src/main/java/es/juliogtrenard/proyectotableview/ProyectoTableView.java:124 | two selections of the same distinct indices in any order sort to the same array |
| `RowRemoval.InsertSorted` | src/main/java/es/juliogtrenard/proyectotableview/ProyectoTableView.java:124 | inserting any index into a non-decreasing sequence keeps it non-decreasing |
| `RowRemoval.InsertAscending` | src/main/java/es/juliogtrenard/proyectotableview/ProyectoTableView.java:124 | inserting an index not yet present into an ascending sequence keeps it ascending |
| `RowRemoval.SortedSelection` | src/main/java/es/juliogtrenard/proyectotableview/ProyectoTableView.java:123-124 | the sorted copy of a distinct in-range selection is strictly ascending, in range, and has the same length and indices |
| `RowRemoval.SelectionLength` | src/main/java/es/juliogtrenard/proyectotableview/ProyectoTableView.java:120-129 | removing a distinct in-range selection shortens the list by the number of indices selected |
| `RowRemoval.DeleteFromBack` | src/main/java/es/juliogtrenard/proyectotableview/ProyectoTableView.java:126-128 | after the indices above position `i` of the ascending array are removed, index `i` is still in range, and removing it gives the list without all indices from `i` on |
| `RowRemoval.AscendingRoom` | src/main/java/es/juliogtrenard/proyectotableview/ProyectoTableView.java:126-128 | in ascending in-range indices each one leaves room above it for those after it, so it is in range once they are removed |
| `RowRemoval.WithoutFirstAndLast` | src/main/java/es/juliogtrenard/proyectotableview/ProyectoTableView.java:119-129 | of three rows, deleting positions 0 and 2 leaves only the middle one |
| `TableViewApp.ProyectoTableView.Start` | src/main/java/es/juliogtrenard/proyectotableview/ProyectoTableView.java:53-56 | the table starts with new records holding the seed values; the text inputs are empty and the date input is null |
| `TableViewApp.ProyectoTableView.DeleteSelectedRows` | src/main/java/es/juliogtrenard/proyectotableview/ProyectoTableView.java:113-130 | with no selection it reports that and changes nothing; otherwise the list becomes the old one with exactly the selected positions removed, survivors in order, shorter by the number selected, whatever the selection order; the row values are the old ones with the same positions removed |
| `TableViewApp.ProyectoTableView.RemoveFromBack` | src/main/java/es/juliogtrenard/proyectotableview/ProyectoTableView.java:125-129 | walking an ascending index array from last to first and removing each index yields the list without exactly those positions |
| `TableViewApp.DataOfKeep` | src/main/java/es/juliogtrenard/proyectotableview/ProyectoTableView.java:126-128 | the values of the records that survive a removal are the old values with the same positions removed |
| `TableViewApp.ProyectoTableView.RestoreRows` | src/main/java/es/juliogtrenard/proyectotableview/ProyectoTableView.java:136-139 | whatever it held before, the list becomes new records with the seed values, none of them a record held before |
| `TableViewApp.ProyectoTableView.GetPerson` | src/main/java/es/juliogtrenard/proyectotableview/ProyectoTableView.java:145-147 | a new record holding the three current inputs and id 0 |
| `TableViewApp.ProyectoTableView.AddPerson` | src/main/java/es/juliogtrenard/proyectotableview/ProyectoTableView.java:154-158 | one new record built from the inputs is appended, earlier rows stay unchanged, and then all three inputs are null |
| `TableViewApp.ProyectoTableView.ClearFields` | src/main/java/es/juliogtrenard/proyectotableview/ProyectoTableView.java:164-168 | all three inputs become null and the rows stay |

## Left out

- The JavaFX scene: `main`, `start` beyond the initial state,
  `getNewPersonDataPane`, buttons, mnemonics and styling. This is UI wiring
  with no logic of its own.
- The column factories `getIdColumn` to `getBirthDateColumn` in
  `PersonTableUtil`. They are reflection-based display glue.
- `HelloController`, which only sets a label's text.
- The getters of `Person`: the model reads the fields directly.
- The never-used `AtomicInteger personSequence`: no id is ever drawn from it.
- The selection model: `clearSelection` calls are not modelled. The selected
  indices are an input. They are required to be distinct and in range, which
  is what the table's selection model guarantees to the handler.
- Null arguments: the error list passed to the checks and `save`, and the
  record passed to the two-argument `isValidPerson`, are non-null references
  in the model. Java would throw `NullPointerException` for a null one once a
  message is appended or a field is read. No caller in the application passes
  null.
- `LocalDate.now()`: today is a parameter. `System.out.println`: returned as a
  value.
- `RowRemoval.Sort`: `Arrays.sort` is modelled by an insertion sort. Only its
  result matters to the handler.
- `Dates.DateTextRoundTrip`: the read-back is proved only for years 0 to
  9999. Other years use `LocalDate`'s sign and `+` prefix rules, which are
  modelled but not read back.
- Strings are sequences of Unicode scalar values, not UTF-16 code units. For
  `trim` the difference does not matter, because only characters at or below
  U+0020 are compared.
