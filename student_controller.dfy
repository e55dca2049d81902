/**
 * The decisions of the Student controller (Controllers/StudentController.cs). The repository is
 * not modelled: its lookups are a `StudentStore`, each action names the write it asks of it, and
 * whether that write throws is an input.
 */
module StudentController {
  import opened Common
  import opened StudentModel
  import opened Controllers

  /** The write an action asks the student repository to perform. */
  datatype StoreWrite = NoWrite | Add(added: Student) | Update(updated: Student) | Remove(removed: Student)

  /** An action's response, the write it issued and the photo file it deleted. */
  datatype ActionResult = ActionResult(response: Response<Student>, write: StoreWrite, deletedFile: Option<string>)

  /** `Index`: the filter, sort key and page it asks the repository and the paginator for. */
  function Index(sortOrder: Option<string>, currentFilter: Option<string>, searchString: Option<string>,
                 pageNumber: Option<int>): (p: IndexParams)
    ensures p.keySortParm == (if IsNullOrEmpty(sortOrder) then "number_desc" else "")
    ensures p.nameSortParm == (if IsNullOrEmpty(sortOrder) then "name_desc" else "")
    ensures p.dateSortParm == (if sortOrder == Some("Date") then "date_desc" else "Date")
    ensures p.currentSort == sortOrder && p.pageSize == 3
    ensures searchString.Some? ==> p.pageNumber == 1 && p.currentFilter == searchString
    ensures searchString.None? ==> p.currentFilter == currentFilter && p.pageNumber == (if pageNumber.Some? then pageNumber.value else 1)
  {
    NormalizeIndex("number_desc", sortOrder, currentFilter, searchString, pageNumber)
  }

  /** `Details`: without an id, the caller's own record; with one, that record, whoever asks. */
  function Details(store: StudentStore, id: Option<string>, caller: Option<string>): (r: Response<Student>)
    ensures r.NotFound? || r.View?
    ensures IsNullOrEmpty(id) ==> (r.View? <==> store.byEmail(caller).Some?)
    ensures IsNullOrEmpty(id) && r.View? ==> r.model == store.byEmail(caller).value
    ensures !IsNullOrEmpty(id) ==> (r.View? <==> store.details(id).Some?)
    ensures !IsNullOrEmpty(id) && r.View? ==> r.model == store.details(id).value
  {
    if IsNullOrEmpty(id) then
      match store.byEmail(caller)
      case None => NotFound
      case Some(s) => View(s)
    else
      match store.details(id)
      case None => NotFound
      case Some(s) => View(s)
  }

  /** Unlike the consumer's, a student's details are shown to any caller: there is no role or ownership check. */
  lemma DetailsHasNoOwnershipCheck(store: StudentStore, id: Option<string>, caller: Option<string>, other: Option<string>)
    requires !IsNullOrEmpty(id)
    ensures Details(store, id, caller) == Details(store, id, other)
  {
  }

  /** `Create` (GET): a caller who already has a record is sent to it; others get a fresh form. */
  function CreateForm(store: StudentStore, caller: Option<string>, now: DateTime): (r: Response<Student>)
    ensures r.RedirectToDetails? <==> store.byEmail(caller).Some?
    ensures r.RedirectToDetails? ==> r.id == store.byEmail(caller).value.studentNumber
    ensures r.View? ==> r.model.photo == Some(DefaultPhoto) && r.model.email == caller && r.model.enrollmentDate == now
    ensures r.View? ==> r.model.studentNumber.None? && r.model.firstName.None? && r.model.surname.None?
    ensures r.RedirectToDetails? || r.View?
  {
    match store.byEmail(caller)
    case Some(s) => RedirectToDetails(s.studentNumber)
    case None => View(Student(None, None, None, now, Some(DefaultPhoto), caller))
  }

  /**
   * `Create` (POST): an upload replaces the photo name; a valid form is stored with the caller's
   * name as its email, and the caller is sent to the record the store then finds for them
   * (`createdLookup`).
   */
  function CreatePost(student: Student, upload: Option<string>, modelValid: bool, caller: Option<string>,
                      addFails: bool, createdLookup: Option<Student>): (r: ActionResult)
    ensures r.deletedFile.None?
    ensures !modelValid ==>
      r.write == NoWrite && r.response == View(student.(photo := EditedPhoto(upload, student.photo)))
    ensures r.response.View? || r.response.ViewWithError? ==> r.response.model.photo == EditedPhoto(upload, student.photo)
    ensures modelValid ==>
      && r.write.Add?
      && r.write.added.email == caller
      && r.write.added == student.(photo := EditedPhoto(upload, student.photo), email := caller)
    ensures modelValid && !addFails ==>
      r.response == RedirectToDetails(if createdLookup.Some? then createdLookup.value.studentNumber else None)
    ensures modelValid && addFails ==>
      r.response == ViewWithError(student.(photo := EditedPhoto(upload, student.photo), email := caller),
                                  "Unable to save student record")
  {
    var bound := student.(photo := EditedPhoto(upload, student.photo));
    if !modelValid then ActionResult(View(bound), NoWrite, None)
    else
      var toStore := bound.(email := caller);
      if addFails then ActionResult(ViewWithError(toStore, "Unable to save student record"), Add(toStore), None)
      else ActionResult(RedirectToDetails(match createdLookup case Some(s) => s.studentNumber case None => None), Add(toStore), None)
  }

  /** `Edit` (GET): only the student whose email the record holds may edit it. */
  function EditForm(store: StudentStore, id: Option<string>, caller: Option<string>): (r: Response<Student>)
    ensures r.NotFound? || r.Forbid? || r.View?
    ensures r.NotFound? <==> IsNullOrEmpty(id) || store.details(id).None?
    ensures r.Forbid? <==> !IsNullOrEmpty(id) && store.details(id).Some? && store.details(id).value.email != caller
    ensures r.View? ==> r.model == store.details(id).value && r.model.email == caller
  {
    if IsNullOrEmpty(id) then NotFound
    else
      match store.details(id)
      case None => NotFound
      case Some(s) => if s.email != caller then Forbid else View(s)
  }

  /**
   * `Edit` (POST): refused unless the posted email is the caller's. Without an upload the photo is
   * the posted `photoName`; with one, the old photo file is deleted unless it is the default one.
   */
  function EditPost(photoName: Option<string>, student: Student, upload: Option<string>, modelValid: bool,
                    caller: Option<string>, updateFails: bool): (r: ActionResult)
    ensures student.email != caller ==> r == ActionResult(Forbid, NoWrite, None)
    ensures r.write != NoWrite ==> student.email == caller && modelValid
    ensures student.email == caller && upload.Some? && photoName.None? ==> r.response.Unhandled? && r.write == NoWrite
    ensures r.deletedFile.Some? ==> upload.Some? && r.deletedFile == photoName && r.deletedFile.value != DefaultPhoto
    ensures r.write.Update? ==> r.write.updated == student.(photo := EditedPhoto(upload, photoName))
    ensures upload.None? && r.write.Update? ==> r.write.updated.photo == photoName
    ensures r.response.RedirectToDetails? <==> (r.write.Update? && !updateFails)
    ensures r.response.RedirectToDetails? ==> r.response.id == student.studentNumber
    ensures student.email == caller ==> !r.response.Forbid?
    ensures student.email == caller && ReplacedPhotoFile(upload, photoName).Ok? ==>
      var edited := student.(photo := EditedPhoto(upload, photoName));
      && r.deletedFile == ReplacedPhotoFile(upload, photoName).value
      && (modelValid <==> r.write == Update(edited))
      && (!modelValid ==> r.response == View(edited))
      && (modelValid && updateFails ==> r.response == ViewWithError(edited, "Unable to save changes"))
  {
    if student.email != caller then ActionResult(Forbid, NoWrite, None)
    else
      match ReplacedPhotoFile(upload, photoName)
      case Err(e) => ActionResult(Unhandled(e), NoWrite, None)
      case Ok(deleted) =>
        var edited := student.(photo := EditedPhoto(upload, photoName));
        if !modelValid then ActionResult(View(edited), NoWrite, deleted)
        else if updateFails then ActionResult(ViewWithError(edited, "Unable to save changes"), Update(edited), deleted)
        else ActionResult(RedirectToDetails(student.studentNumber), Update(edited), deleted)
  }

  /** `Delete` (GET): the confirmation page of a stored record. */
  function DeleteForm(store: StudentStore, id: Option<string>): (r: Response<Student>)
    ensures r.NotFound? || r.View?
    ensures r.NotFound? <==> IsNullOrEmpty(id) || store.details(id).None?
    ensures r.View? ==> r.model == store.details(id).value
  {
    if IsNullOrEmpty(id) then NotFound
    else
      match store.details(id)
      case None => NotFound
      case Some(s) => View(s)
  }

  /**
   * `DeleteConfirmed`: deletes the photo file unless it is the default one, then asks the store
   * to remove the record. A null photo makes the file step throw and nothing is removed.
   */
  function DeleteConfirmed(store: StudentStore, id: Option<string>, removeFails: bool): (r: ActionResult)
    ensures store.details(id).None? ==> r == ActionResult(NotFound, NoWrite, None)
    ensures r.deletedFile.Some? ==>
      store.details(id).Some? && r.deletedFile == store.details(id).value.photo && r.deletedFile.value != DefaultPhoto
    ensures store.details(id).Some? && store.details(id).value.photo.Some? ==>
      && r.write == Remove(store.details(id).value)
      && (r.deletedFile.Some? <==> store.details(id).value.photo.value != DefaultPhoto)
    ensures r.response == RedirectToIndex <==> r.write.Remove? && !removeFails
    ensures store.details(id).Some? && store.details(id).value.photo.None? ==>
      && r.write == NoWrite
      && r.deletedFile.None?
      && r.response == ViewWithError(store.details(id).value, "Unable to delete student")
    ensures store.details(id).Some? && removeFails ==>
      r.response == ViewWithError(store.details(id).value, "Unable to delete student")
  {
    match store.details(id)
    case None => ActionResult(NotFound, NoWrite, None)
    case Some(s) =>
      match RemovedPhotoFile(s.photo)
      case Err(_) => ActionResult(ViewWithError(s, "Unable to delete student"), NoWrite, None)
      case Ok(deleted) =>
        if removeFails then ActionResult(ViewWithError(s, "Unable to delete student"), Remove(s), deleted)
        else ActionResult(RedirectToIndex, Remove(s), deleted)
  }
}
