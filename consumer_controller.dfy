/**
 * The decisions of the Consumer controller (Controllers/ConsumerController.cs) over the modelled
 * repository. The caller's name and role, whether a file was uploaded (and the name it was
 * stored under), the binding outcome and the clock are inputs.
 */
module ConsumerController {
  import opened Common
  import opened ConsumerModel
  import opened ConsumerRepository
  import opened Controllers
  import opened StableSort

  /** The list, page and page size handed to the paginator. */
  datatype PageRequest = PageRequest(items: seq<Consumer>, pageNumber: int, pageSize: int)

  /** `Index`: its view data and its response. */
  datatype IndexResult = IndexResult(viewData: IndexParams, response: Response<PageRequest>)

  /** The message of the exception `Index` raises when the query fails. */
  const NoRecords: string := "No consumer records detected"

  /** `Index`: normalise the parameters, then list the consumers under the effective filter and sort key. */
  function Index(repo: ConsumerRepo, sortOrder: Option<string>, currentFilter: Option<string>,
                 searchString: Option<string>, pageNumber: Option<int>, le: (string, string) -> bool): (r: IndexResult)
    reads repo
    ensures r.viewData == NormalizeIndex("id_desc", sortOrder, currentFilter, searchString, pageNumber)
    ensures r.viewData.currentFilter == (if searchString.Some? then searchString else currentFilter)
    ensures r.response.View? || r.response == Unhandled(NoRecords)
    ensures var q := repo.GetConsumers(r.viewData.currentFilter, sortOrder, le);
      && (r.response.View? <==> q.Ok?)
      && (r.response.View? ==> r.response.model.items == q.value)
    ensures r.response.View? ==>
      && r.response.model.pageSize == 3
      && r.response.model.pageNumber == r.viewData.pageNumber
      && (searchString.Some? ==> r.response.model.pageNumber == 1)
    ensures IsNullOrEmpty(r.viewData.currentFilter) ==>
      r.response.View? && multiset(r.response.model.items) == multiset(repo.consumers)
    ensures r.response.View? && !IsNullOrEmpty(r.viewData.currentFilter) ==> forall c ::
      multiset(r.response.model.items)[c] ==
        if SearchMatch(c, r.viewData.currentFilter.value) == Some(true) then multiset(repo.consumers)[c] else 0
  {
    var p := NormalizeIndex("id_desc", sortOrder, currentFilter, searchString, pageNumber);
    var listed := repo.GetConsumers(p.currentFilter, sortOrder, le);
    IndexResult(p, match listed
      case Ok(items) => View(PageRequest(items, p.pageNumber, p.pageSize))
      case Err(_) => Unhandled(NoRecords))
  }

  /**
   * The sort links: the date link always offers the other date order, and the key and name links
   * offer a descending order only from the default listing; every other link value falls back to
   * ascending names.
   */
  lemma {:induction false} SortLinks(sortOrder: Option<string>, currentFilter: Option<string>,
                                     searchString: Option<string>, pageNumber: Option<int>)
    ensures var p := NormalizeIndex("id_desc", sortOrder, currentFilter, searchString, pageNumber);
      && ParseSortOrder(Some(p.dateSortParm)) == (if ParseSortOrder(sortOrder) == DateAsc then DateDesc else DateAsc)
      && ParseSortOrder(Some(p.keySortParm)) == (if IsNullOrEmpty(sortOrder) then IdDesc else NameAsc)
      && ParseSortOrder(Some(p.nameSortParm)) == (if IsNullOrEmpty(sortOrder) then NameDesc else NameAsc)
  {
    var p := NormalizeIndex("id_desc", sortOrder, currentFilter, searchString, pageNumber);
    assert ParseSortOrder(sortOrder) == DateAsc <==> sortOrder == Some("Date");
  }

  /**
   * `Details`: without an id, the caller's own record; with one, that record, shown only to an
   * administrator or to the consumer whose email it holds.
   */
  function Details(repo: ConsumerRepo, id: Option<string>, caller: Option<string>, isAdmin: bool): (r: Response<Consumer>)
    reads repo
    ensures r.NotFound? || r.Forbid? || r.View?
    ensures r.NotFound? <==> if IsNullOrEmpty(id) then repo.ByEmail(caller).None? else repo.Details(id).None?
    ensures r.Forbid? <==>
      !IsNullOrEmpty(id) && repo.Details(id).Some? && !isAdmin && repo.Details(id).value.email != caller
    ensures r.View? ==> r.model in repo.consumers && (isAdmin || r.model.email == caller)
    ensures r.View? && !IsNullOrEmpty(id) ==> r.model.consumerId == id
    ensures r.View? ==> r.model == (if IsNullOrEmpty(id) then repo.ByEmail(caller) else repo.Details(id)).value
  {
    if IsNullOrEmpty(id) then
      match repo.ByEmail(caller)
      case None => NotFound
      case Some(c) => View(c)
    else
      match repo.Details(id)
      case None => NotFound
      case Some(c) => if !isAdmin && c.email != caller then Forbid else View(c)
  }

  /** `Create` (GET): a caller who already has a record is sent to it; others get a fresh form. */
  function CreateForm(repo: ConsumerRepo, caller: Option<string>, now: DateTime): (r: Response<Consumer>)
    reads repo
    ensures r.RedirectToDetails? || r.View?
    ensures r.RedirectToDetails? <==> exists i | 0 <= i < |repo.consumers| :: repo.consumers[i].email == caller
    ensures r.RedirectToDetails? ==> exists c | c in repo.consumers :: c.email == caller && r.id == c.consumerId
    ensures r.RedirectToDetails? ==> r.id == repo.ByEmail(caller).value.consumerId
    ensures r.View? ==> r.model == Consumer(None, None, caller, None, None, now, Some(DefaultPhoto))
  {
    match repo.ByEmail(caller)
    case Some(c) => RedirectToDetails(c.consumerId)
    case None => View(Consumer(None, None, caller, None, None, now, Some(DefaultPhoto)))
  }

  /**
   * `Create` (POST). Model binding validated the consumer as posted; an upload replaces the photo
   * name; the stored record always carries the caller's name as its email and the current time
   * as its registration date; the caller is then sent to the first record with their email.
   */
  method CreatePost(repo: ConsumerRepo, consumer: Consumer, upload: Option<string>, bindingOk: bool,
                    checks: FormatChecks, caller: Option<string>, now: DateTime) returns (r: Response<Consumer>)
    requires repo.Valid()
    modifies repo
    ensures repo.Valid()
    ensures var bound := consumer.(photo := EditedPhoto(upload, consumer.photo));
      var stored := bound.(email := caller, registrationDate := now);
      if !bindingOk || Violations(consumer, checks) != [] then
        r == View(bound) && repo.consumers == old(repo.consumers)
      else if stored.consumerId.Some? && !old(repo.IsExist(stored.consumerId)) then
        && repo.consumers == old(repo.consumers) + [stored]
        && repo.ByEmail(caller).Some?
        && r == RedirectToDetails(repo.ByEmail(caller).value.consumerId)
        && r.id.Some?
      else
        r == ViewWithError(stored, "Unable to save consumer record") && repo.consumers == old(repo.consumers)
  {
    var bound := consumer.(photo := EditedPhoto(upload, consumer.photo));
    if !bindingOk || Violations(consumer, checks) != [] {
      return View(bound);
    }
    var toStore := bound.(email := caller);
    var created := repo.Create(Some(toStore), now);
    if created.Err? {
      // the repository stamped the date on the posted object before the store refused it
      return ViewWithError(toStore.(registrationDate := now), "Unable to save consumer record");
    }
    assert repo.consumers[|repo.consumers| - 1].email == caller;
    var createdConsumer := repo.ByEmail(caller);
    r := RedirectToDetails(createdConsumer.value.consumerId);
  }

  /** `Edit` (GET): only the consumer whose email the record holds may edit it. */
  function EditForm(repo: ConsumerRepo, id: Option<string>, caller: Option<string>): (r: Response<Consumer>)
    reads repo
    ensures r.NotFound? || r.Forbid? || r.View?
    ensures r.NotFound? <==> IsNullOrEmpty(id) || repo.Details(id).None?
    ensures r.Forbid? <==> !IsNullOrEmpty(id) && repo.Details(id).Some? && repo.Details(id).value.email != caller
    ensures r.View? ==> r.model in repo.consumers && r.model.consumerId == id && r.model.email == caller
    ensures r.View? ==> r.model == repo.Details(id).value
  {
    if IsNullOrEmpty(id) then NotFound
    else
      match repo.Details(id)
      case None => NotFound
      case Some(c) => if c.email != caller then Forbid else View(c)
  }

  /**
   * `Edit` (POST): refused unless the posted email is the caller's. Without an upload the photo is
   * the posted `photoName`; with one, the old photo file is deleted unless it is the default one,
   * before validation is looked at.
   */
  method EditPost(repo: ConsumerRepo, photoName: Option<string>, consumer: Consumer, upload: Option<string>,
                  bindingOk: bool, checks: FormatChecks, caller: Option<string>)
    returns (r: Response<Consumer>, deletedFile: Option<string>)
    requires repo.Valid()
    modifies repo
    ensures repo.Valid()
    ensures consumer.email != caller ==> r == Forbid && deletedFile.None? && repo.consumers == old(repo.consumers)
    ensures consumer.email == caller && upload.Some? && photoName.None? ==>
      r == Unhandled("ArgumentNullException") && deletedFile.None? && repo.consumers == old(repo.consumers)
    ensures consumer.email == caller && ReplacedPhotoFile(upload, photoName).Ok? ==>
      var edited := consumer.(photo := EditedPhoto(upload, photoName));
      && deletedFile == ReplacedPhotoFile(upload, photoName).value
      && (if !bindingOk || Violations(consumer, checks) != [] then
            r == View(edited) && repo.consumers == old(repo.consumers)
          else if old(repo.IsExist(consumer.consumerId)) then
            && r == RedirectToDetails(consumer.consumerId)
            && |repo.consumers| == |old(repo.consumers)|
            && forall i | 0 <= i < |repo.consumers| :: repo.consumers[i] ==
                 if old(repo.consumers)[i].consumerId == consumer.consumerId then edited else old(repo.consumers)[i]
          else
            r == ViewWithError(edited, "Unable to save changes") && repo.consumers == old(repo.consumers))
  {
    deletedFile := None;
    if consumer.email != caller {
      return Forbid, None;
    }
    var replaced := ReplacedPhotoFile(upload, photoName);
    if replaced.Err? {
      return Unhandled(replaced.error), None;
    }
    deletedFile := replaced.value;
    var edited := consumer.(photo := EditedPhoto(upload, photoName));
    if !bindingOk || Violations(consumer, checks) != [] {
      return View(edited), deletedFile;
    }
    var saved := repo.Edit(edited);
    if saved.Err? {
      return ViewWithError(edited, "Unable to save changes"), deletedFile;
    }
    r := RedirectToDetails(consumer.consumerId);
  }

  /** `Delete` (GET): the confirmation page of a stored record. */
  function DeleteForm(repo: ConsumerRepo, id: Option<string>): (r: Response<Consumer>)
    reads repo
    ensures r.NotFound? || r.View?
    ensures r.NotFound? <==> IsNullOrEmpty(id) || forall c | c in repo.consumers :: c.consumerId != id
    ensures r.View? ==> r.model in repo.consumers && r.model.consumerId == id
    ensures r.View? ==> r.model == repo.Details(id).value
  {
    if IsNullOrEmpty(id) then NotFound
    else
      match repo.Details(id)
      case None => NotFound
      case Some(c) => View(c)
  }

  /**
   * `DeleteConfirmed`: deletes the photo file unless it is the default one, then the record,
   * and returns to the listing. A null photo makes the file step throw and nothing is deleted.
   */
  method DeleteConfirmed(repo: ConsumerRepo, id: Option<string>) returns (r: Response<Consumer>, deletedFile: Option<string>)
    requires repo.Valid()
    modifies repo
    ensures repo.Valid()
    ensures !old(repo.IsExist(id)) ==> r == NotFound && deletedFile.None? && repo.consumers == old(repo.consumers)
    ensures old(repo.IsExist(id)) ==>
      var c := old(repo.Details(id)).value;
      if c.photo.None? then
        r == ViewWithError(c, "Unable to delete consumer") && deletedFile.None? && repo.consumers == old(repo.consumers)
      else
        && r == RedirectToIndex
        && (deletedFile.Some? <==> c.photo.value != DefaultPhoto)
        && (deletedFile.Some? ==> deletedFile == c.photo)
        && !repo.IsExist(id)
        && exists i | 0 <= i < |old(repo.consumers)| ::
             old(repo.consumers)[i].consumerId == id && repo.consumers == old(repo.consumers)[..i] + old(repo.consumers)[i + 1..]
  {
    var found := repo.Details(id);
    if found.None? {
      return NotFound, None;
    }
    var c := found.value;
    var removed := RemovedPhotoFile(c.photo);
    if removed.Err? {
      return ViewWithError(c, "Unable to delete consumer"), None;
    }
    deletedFile := removed.value;
    var gone := repo.Delete(c);
    if gone.Err? {
      return ViewWithError(c, "Unable to delete consumer"), deletedFile;
    }
    r := RedirectToIndex;
  }

  /** A stored consumer, and the form another consumer posts with that consumer's key and their own email. */
  function AnnRecord(): Consumer
  {
    Consumer(Some("12345"), Some("Ann"), Some("ann@example.com"), Some("1 Main Rd"),
             Some("0795547786"), Day(2021, 2, 3), Some("DefaultPic.png"))
  }

  function EvePost(): Consumer
  {
    AnnRecord().(name := Some("Eve"), email := Some("eve@example.com"))
  }

  /** Format tests that accept every email and phone number. */
  function AcceptAllFormats(): FormatChecks
  {
    FormatChecks(_ => true, _ => true)
  }

  lemma EvePostValid()
    ensures Violations(EvePost(), AcceptAllFormats()) == []
  {
    var posted, checks := EvePost(), AcceptAllFormats();
    assert Utf16Length("12345") == 5 && Utf16Length("Eve") == 3 && Utf16Length("1 Main Rd") == 9;
    assert !IsWhiteSpace(posted.consumerId.value[0]) && !IsWhiteSpace(posted.name.value[0]);
    assert !IsWhiteSpace(posted.email.value[0]) && !IsWhiteSpace(posted.address.value[0]);
    assert !IsWhiteSpace(posted.phone.value[0]);
    forall f ensures FieldValid(posted, f, checks) {
    }
    NoViolationsIffValid(posted, checks);
  }

  /**
   * The ownership test of `Edit` (POST) reads only the posted email. A consumer who posts another
   * consumer's key together with their own email replaces that other record, which then names
   * the poster as its owner.
   */
  method EditPostOverwritesAnotherRecord() returns (before: Consumer, after: Consumer, r: Response<Consumer>)
    ensures before.email == Some("ann@example.com") && after.email == Some("eve@example.com")
    ensures before.consumerId == after.consumerId == Some("12345")
    ensures before.name == Some("Ann") && after.name == Some("Eve")
    ensures r == RedirectToDetails(Some("12345"))
  {
    before := AnnRecord();
    var repo := new ConsumerRepo([before]);
    EvePostValid();
    assert repo.IsExist(EvePost().consumerId);
    var deleted;
    r, deleted := EditPost(repo, Some("DefaultPic.png"), EvePost(), None, true, AcceptAllFormats(), Some("eve@example.com"));
    after := repo.consumers[0];
  }

  /**
   * `Edit` (POST) with the ownership test it needs: the stored record with the posted key must be
   * the caller's as well. No record that belongs to someone other than the caller is changed.
   */
  method EditPostOwnerChecked(repo: ConsumerRepo, photoName: Option<string>, consumer: Consumer, upload: Option<string>,
                              bindingOk: bool, checks: FormatChecks, caller: Option<string>)
    returns (r: Response<Consumer>, deletedFile: Option<string>)
    requires repo.Valid()
    modifies repo
    ensures repo.Valid()
    ensures |repo.consumers| == |old(repo.consumers)|
    ensures forall i | 0 <= i < |repo.consumers| && old(repo.consumers)[i].email != caller ::
      repo.consumers[i] == old(repo.consumers)[i]
    ensures consumer.email != caller || (old(repo.Details(consumer.consumerId)).Some? && old(repo.Details(consumer.consumerId)).value.email != caller)
      ==> r == Forbid && deletedFile.None? && repo.consumers == old(repo.consumers)
    ensures && consumer.email == caller && old(repo.IsExist(consumer.consumerId))
            && old(repo.Details(consumer.consumerId)).value.email == caller
            && ReplacedPhotoFile(upload, photoName).Ok? && bindingOk && Violations(consumer, checks) == [] ==>
      var edited := consumer.(photo := EditedPhoto(upload, photoName));
      && r == RedirectToDetails(consumer.consumerId)
      && deletedFile == ReplacedPhotoFile(upload, photoName).value
      && forall i | 0 <= i < |repo.consumers| :: repo.consumers[i] ==
           if old(repo.consumers)[i].consumerId == consumer.consumerId then edited else old(repo.consumers)[i]
  {
    var stored := repo.Details(consumer.consumerId);
    if stored.Some? && stored.value.email != caller {
      return Forbid, None;
    }
    ghost var before := repo.consumers;
    forall i | 0 <= i < |before| && before[i].consumerId == consumer.consumerId
      ensures before[i].email == caller
    {
      var k :| 0 <= k < |before| && before[k] == stored.value && stored.value.consumerId == consumer.consumerId;
      assert i == k;
    }
    r, deletedFile := EditPost(repo, photoName, consumer, upload, bindingOk, checks, caller);
  }
}
