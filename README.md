# BookNest consumer and student records, modelled in Dafny

BookNest is an ASP.NET Core MVC application. It keeps two kinds of records in a SQLite database
through Entity Framework: consumers and students. This project models its core:

- **Consumer entity and its validation rules** (`ConsumerModel`, consumer.dfy). The seven
  properties of a consumer. Model binding checks the `[Required]`, `[StringLength]`,
  `[EmailAddress]` and `[Phone]` attributes, and each failed attribute reports its own message.
- **Consumer repository** (`ConsumerRepository`, consumer_repo.dfy). A class over the stored
  Consumer table; the table's invariant is the primary-key constraint.
  - `Details`, `ByEmail` and `IsExist` find the first matching row.
  - `GetConsumers` filters by search string, with `||` short-circuit and a throw on a null
    property, then sorts stably by the key the sort order names.
  - `Create`, `Edit` and `Delete` change the table the way a keyed store does.
- **Stable ordering** (`StableSort`, stable_sort.dfy). LINQ `OrderBy` and `OrderByDescending` are
  modelled as a stable insertion sort under a total preorder. Proved: the result is sorted, is a
  permutation of the input, and keeps equal keys in input order.
- **Controllers** (controllers.dfy, consumer_controller.dfy, student_controller.dfy). Each action
  decides a response: not found, forbidden, a view, a view with a model-state error, a redirect,
  or an exception that leaves the action.
  - The Consumer actions run against the modelled repository. The POST actions are methods that
    change it.
  - The Student repository is not part of this model. The Student actions read its lookups
    (`StudentStore`) and return the write they ask of it.
- **Database initializer** (`DbInitializer`, db_initializer.dfy). The seeding run at start-up: a
  class over both tables, whose loops track the seed records one at a time and save at the end.

These are inputs to the model, not computed by it:

- the caller's user name and whether they are an administrator;
- whether a file was uploaded, and the new name it was stored under;
- the outcome of model binding, and the framework's email and phone format tests;
- the current time;
- the culture-sensitive string comparer. It is a parameter, assumed to be a total preorder, and
  null sorts before every string.

## Model

| member | source | states |
|---|---|---|
| Common.ContainsIff | Repositories/ConsumerRepo.cs:58-60 | `String.Contains` as used by the search holds exactly when the needle occurs at some offset of the string |
| Common.FirstIndex | Repositories/ConsumerRepo.cs:36 | `FirstOrDefault` finds the first element that satisfies the predicate, and `None` means no element does |
| Common.DayOrder | Repositories/DBInitializerRepo.cs:22-40 | the instants `DateTime.Parse` gives the seed dates are ordered by year, then month, then day, and equal exactly for the same day |
| StableSort.Sort | Repositories/ConsumerRepo.cs:63-80 | each ordering's result has the same elements as its input, counted with multiplicity |
| StableSort.SortSorted | Repositories/ConsumerRepo.cs:63-80 | under a total preorder, the sorted list is ordered for every pair of positions |
| StableSort.SortStable | Repositories/ConsumerRepo.cs:63-80 | elements with equal keys keep their relative input order, as LINQ ordering promises |
| ConsumerModel.ViolationsName | Models/Consumer.cs:7-40 | a property appears in the model-state errors exactly when one of its attributes fails |
| ConsumerModel.NoViolationsIffValid | Models/Consumer.cs:7-40 | the model state holds no error exactly when every property passes all its attributes |
| ConsumerModel.DateAndPhotoUnconstrained | Models/Consumer.cs:33-40 | changing the registration date or the photo never changes the model-state errors |
| Common.Utf16LengthBounds | Models/Consumer.cs:10-25 | `string.Length` counts UTF-16 code units: one or two per character, and one each exactly when every character is in the Basic Multilingual Plane |
| ConsumerModel.ValidBounds | Models/Consumer.cs:9-31 | a valid consumer has an id of 3-10 UTF-16 code units, a name of 2-100 and a non-empty address of at most 200, and an email and phone that are present, non-empty and pass their format tests |
| ConsumerRepository.KeyLePreorder | Repositories/ConsumerRepo.cs:63-80 | each of the five orderings is a total preorder on consumers, so the sort is well defined |
| ConsumerRepository.SearchMatch | Repositories/ConsumerRepo.cs:57-60 | the match holds when the id, name or email contains the search string; it throws exactly when evaluation reaches a null property before a match; a matching id never throws |
| ConsumerRepository.Filter | Repositories/ConsumerRepo.cs:55-61 | the filter throws exactly when some consumer hits a null property; it otherwise keeps every matching consumer, with its multiplicity, in table order |
| ConsumerRepository.ConsumerRepo.Details | Repositories/ConsumerRepo.cs:34-37 | returns the first stored consumer with that key, or null when no row has it |
| ConsumerRepository.ConsumerRepo.ByEmail | Repositories/ConsumerRepo.cs:39-42 | returns the first stored consumer with that email, or null when no row has it |
| ConsumerRepository.ConsumerRepo.IsExist | Repositories/ConsumerRepo.cs:85-88 | true exactly when some stored row has the key |
| ConsumerRepository.ConsumerRepo.GetConsumers | Repositories/ConsumerRepo.cs:51-83 | an empty search lists every consumer; otherwise it lists exactly the matching ones, and fails exactly when the search reaches a null property |
| ConsumerRepository.ConsumerRepo.Create | Repositories/ConsumerRepo.cs:17-25 | null throws; the date is stamped with the current time; a null or taken key is refused with the table unchanged; otherwise the stamped record is appended; the key constraint is kept |
| ConsumerRepository.ConsumerRepo.Edit | Repositories/ConsumerRepo.cs:44-49 | replaces exactly the row with the consumer's key and leaves every other row alone; a null or unstored key is refused with the table unchanged |
| ConsumerRepository.ConsumerRepo.Delete | Repositories/ConsumerRepo.cs:27-32 | removes exactly the row with the key; refuses a null or unstored key; reports true exactly when the key is gone afterwards |
| ConsumerRepository.GetConsumersOrder | Repositories/ConsumerRepo.cs:63-80 | "Date" lists dates ascending; "date_desc" dates descending; "id_desc" ids descending; "name_desc" names descending; any other value, null included, names ascending |
| ConsumerRepository.GetConsumersStable | Repositories/ConsumerRepo.cs:63-80 | consumers with equal sort keys keep the table order the filter left them in |
| Controllers.NormalizeIndex | Controllers/ConsumerController.cs:31-45 | a new search restarts at page 1 under that search; with no search the previous filter and the requested page are kept, page 1 by default; the page size is 3 |
| Controllers.PageLinkKeepsFilter | Controllers/ConsumerController.cs:36-45 | following a page link keeps the filter and sort of the page shown |
| Controllers.ReplacedPhotoFile | Controllers/ConsumerController.cs:192-204 | an upload deletes the old photo unless it is the default one; with an upload, a null photo name throws |
| Controllers.RemovedPhotoFile | Controllers/ConsumerController.cs:264-273 | deleting a record deletes its photo unless it is the default one; a null photo throws |
| ConsumerController.Index | Controllers/ConsumerController.cs:29-57 | the view data, sort links and page included, are those of the parameter normalisation with "id_desc" as the key link; it lists exactly what `GetConsumers` returns for the effective filter and sort key, in that order, in pages of 3; only a query that throws becomes "No consumer records detected" |
| ConsumerController.SortLinks | Controllers/ConsumerController.cs:31-34 | the date link toggles between ascending and descending dates; the id and name links give descending order only from the default listing |
| ConsumerController.Details | Controllers/ConsumerController.cs:59-85 | without an id, the first record with the caller's email; with one, the record with that key; a record is shown only to an administrator or to its owner, and forbidden otherwise |
| ConsumerController.CreateForm | Controllers/ConsumerController.cs:89-103 | a caller who has a record is redirected to it; others get an empty form with the default photo, their email and the current time |
| ConsumerController.CreatePost | Controllers/ConsumerController.cs:108-157 | an invalid form is shown again unchanged; a valid one is stored with the caller's email and the current time and redirects to a non-null id; a refused store shows "Unable to save consumer record" |
| ConsumerController.EditForm | Controllers/ConsumerController.cs:161-180 | only the owner of a stored record gets its edit form, and it shows the record `Details` finds for the id |
| ConsumerController.EditPost | Controllers/ConsumerController.cs:185-231 | forbidden unless the posted email is the caller's; with an upload and no photo name it throws before anything is saved; a valid edit replaces exactly the row with the key and redirects to it |
| ConsumerController.EditPostOverwritesAnotherRecord | Controllers/ConsumerController.cs:187-221 | a consumer who posts another consumer's key with their own email is let through, the other record is replaced and now carries the poster's email, and the response redirects to it |
| ConsumerController.EditPostOwnerChecked | Controllers/ConsumerController.cs:185-231 | with the stored record's owner checked too, no record owned by anyone but the caller is changed; a post for another's record is forbidden; the owner's valid edit still replaces their row and redirects |
| ConsumerController.DeleteForm | Controllers/ConsumerController.cs:235-249 | the confirmation page shows the record `Details` finds for the id, and not found when there is none |
| ConsumerController.DeleteConfirmed | Controllers/ConsumerController.cs:254-283 | removes exactly the row with the key and its non-default photo file, then redirects; a null photo is caught and nothing is removed |
| StudentController.Index | Controllers/StudentController.cs:29-51 | the same parameter handling, with "number_desc" as the key column's link |
| StudentController.Details | Controllers/StudentController.cs:59-79 | the caller's own record without an id, else the record with that id, or not found |
| StudentController.DetailsHasNoOwnershipCheck | Controllers/StudentController.cs:70-78 | with an id, every caller sees the same response: there is no ownership check |
| StudentController.CreateForm | Controllers/StudentController.cs:83-97 | a caller who has a record is redirected to it; others get an empty form with the default photo, their email and the current time |
| StudentController.CreatePost | Controllers/StudentController.cs:102-148 | an invalid form is shown again with its photo; a valid form is added with the caller's email; success redirects to the record then found for the caller; a refused add shows that record with "Unable to save student record" |
| StudentController.EditForm | Controllers/StudentController.cs:152-171 | only the owner of a stored record gets its edit form |
| StudentController.EditPost | Controllers/StudentController.cs:176-222 | forbidden exactly when the posted email is not the caller's; with an upload and no photo name it throws; otherwise the old photo file goes, an invalid form is shown again, and a valid one is written as the edit; success redirects to the record's number, a refused write shows "Unable to save changes" |
| StudentController.DeleteForm | Controllers/StudentController.cs:226-240 | the confirmation page shows the record with that id, and not found when there is none |
| StudentController.DeleteConfirmed | Controllers/StudentController.cs:245-274 | removes the record and its non-default photo file, then redirects; a null photo is caught, nothing is removed and "Unable to delete student" is shown |
| DbInitializer.AddAllIff | Repositories/DBInitializerRepo.cs:28-31 | tracking seeds one by one succeeds exactly when all keys stay present and distinct, and then appends every seed in order |
| DbInitializer.UniqueKeysAgree | Repositories/DBInitializerRepo.cs:42-45 | the seeding's key test on Consumers is the same primary-key constraint the consumer repository keeps |
| DbInitializer.Database.Initialize | Repositories/DBInitializerRepo.cs:11-49 | a non-empty Students table is left alone; otherwise both seed lists are tracked in order and saved together, and a refused record leaves both tables unchanged |
| DbInitializer.SecondRunIsNoOp | Repositories/DBInitializerRepo.cs:14-17 | after a run that seeded at least one student, every later run changes nothing |
| DbInitializer.AsWrittenSeedNeverApplies | Repositories/DBInitializerRepo.cs:33-46 | with the seed consumers as written, a run on an empty Students table always fails on key "90909" and saves nothing |
| DbInitializer.CorrectedSeedApplies | Repositories/DBInitializerRepo.cs:19-46 | with distinct consumer keys, a run on an empty Students table appends the three students and the three consumers in order |

## Left out

- Pagination: `PaginatedList` is not part of this model. `Index` returns the full list with the page number and page size it asks for.
- File I/O: uploads are written, old files deleted and existence checked; the model records only which photo name is deleted. `File.Exists` is taken as true. A failing write, and a randomly generated file name, are not modelled.
- Identity: after a create, the user's roles are replaced and they are signed in again. The model does not follow this, and `[Authorize]` role gates are not modelled; the consumer `Details` takes the caller's admin flag as an input.
- The Student entity's own model file and its repository are not part of this model. Its validation rules are therefore the `modelValid` input, and the store's outcome is the `addFails`, `updateFails` and `removeFails` inputs.
- `EnsureCreated` and the migration run are not modelled. `Initialize` starts from the tables as they are.
- Exception messages: a caught exception's text, appended to the model-state error, is left out. The error keeps only its fixed prefix.
- ConsumerRepository.ConsumerRepo.Create: the database's NOT NULL columns are not modelled, so a record with a null name or a null address is stored.
- ConsumerRepository.ConsumerRepo.Edit: the NOT NULL columns are not modelled here either, so an edit that sets the name or the address to null is stored.
- ConsumerRepository.ConsumerRepo.Edit: `Update` of an entity that is already tracked is not modelled, and neither is the exact exception Entity Framework raises for an unstored key.
- ConsumerController.CreatePost: the posted object is mutated in place, and the model gives the re-shown form the same field values as value copies. It does not model aliasing.
- ConsumerModel.IsWhiteSpace: covers only the Latin-1 white-space characters, not all of Unicode.
- ConsumerModel.FormatChecks: what `[EmailAddress]` and `[Phone]` accept is a parameter. Their rules are framework code.
- DbInitializer.Database.Initialize: the store refuses a taken key as each record is added. Entity Framework makes that check at `Add` for tracked records, and at `SaveChanges` for stored ones. The outcome, nothing saved, is the same; the key the error names may differ.
- DbInitializer.StudentKey: the student number is taken as the Students table's key, because the Student entity's model file, which declares the key, is not part of this model.
- StudentController.Index: the student listing's search and sort are repository code that is not part of this model.

## Findings

| source | as written | input that shows it | evidently intended | confidence | as-written member | corrected member |
|---|---|---|---|---|---|---|
| Repositories/DBInitializerRepo.cs:35-38 | the first two seed consumers both have `ConsumerId` "90909", the table's key, so the store refuses the second and the single save is never reached; the exception ends the start-up block in Program.cs:78-119, which also skips creating the roles and the administrator account, on every start-up | a first start-up on an empty database | three consumers with distinct keys, seeded together with the three students | not executed | DbInitializer.AsWrittenSeedNeverApplies | DbInitializer.CorrectedSeedApplies |
| Controllers/ConsumerController.cs:187 | `Edit` (POST) compares the caller only with the email in the posted form; `ConsumerRepo.Edit` then replaces the stored row whose key the form names (Repositories/ConsumerRepo.cs:44-49), whoever owns it. StudentController.cs:178 makes the same test, over a store that is not part of this model | a signed-in consumer posts the edit form with another consumer's `ConsumerId` and their own email | the stored record with the posted key must belong to the caller as well, and otherwise the request is forbidden | not executed | ConsumerController.EditPostOverwritesAnotherRecord | ConsumerController.EditPostOwnerChecked |
