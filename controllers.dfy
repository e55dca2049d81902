/** What the Consumer and Student controllers share: responses, the `Index` parameter handling and photo names. */
module Controllers {
  import opened Common

  /** What an action hands back to the framework. */
  datatype Response<T> =
    | NotFound
    | Forbid
    | View(model: T)
    | ViewWithError(model: T, message: string)  // a model-state error was added and the form is shown again
    | RedirectToDetails(id: Option<string>)
    | RedirectToIndex
    | Unhandled(message: string)               // an exception leaves the action for the exception filter

  /** The photo every new record starts with; its file is never deleted. */
  const DefaultPhoto: string := "default.png"

  /** Records per listing page. */
  const PageSize: int := 3

  /** What `Index` stores in `ViewData`, and the filter and page it lists. */
  datatype IndexParams = IndexParams(
    currentSort: Option<string>,
    keySortParm: string,
    nameSortParm: string,
    dateSortParm: string,
    currentFilter: Option<string>,
    pageNumber: int,
    pageSize: int)

  /**
   * The parameter handling at the top of `Index`: the sort links, then a new search that
   * restarts at page 1, or else the filter carried over from the previous page.
   * `keyDescending` is the link value of the entity's key column.
   */
  function NormalizeIndex(keyDescending: string, sortOrder: Option<string>, currentFilter: Option<string>,
                          searchString: Option<string>, pageNumber: Option<int>): (p: IndexParams)
    ensures p.currentSort == sortOrder && p.pageSize == PageSize
    ensures searchString.Some? ==> p.currentFilter == searchString && p.pageNumber == 1
    ensures searchString.None? ==> p.currentFilter == currentFilter
    ensures searchString.None? && pageNumber.None? ==> p.pageNumber == 1
    ensures searchString.None? && pageNumber.Some? ==> p.pageNumber == pageNumber.value
  {
    var page := if searchString.Some? then Some(1) else pageNumber;
    var filter := if searchString.Some? then searchString else currentFilter;
    IndexParams(
      sortOrder,
      if IsNullOrEmpty(sortOrder) then keyDescending else "",
      if IsNullOrEmpty(sortOrder) then "name_desc" else "",
      if sortOrder == Some("Date") then "date_desc" else "Date",
      filter,
      match page case Some(n) => n case None => 1,
      PageSize)
  }

  /**
   * A page link carries the shown filter back as `currentFilter` with no search string:
   * the next page lists under the same filter, at the page the link names.
   */
  lemma PageLinkKeepsFilter(keyDescending: string, sortOrder: Option<string>, currentFilter: Option<string>,
                            searchString: Option<string>, pageNumber: Option<int>, next: int)
    ensures var p := NormalizeIndex(keyDescending, sortOrder, currentFilter, searchString, pageNumber);
      var q := NormalizeIndex(keyDescending, p.currentSort, p.currentFilter, None, Some(next));
      q.currentFilter == p.currentFilter && q.pageNumber == next && q.currentSort == sortOrder
  {
  }

  /** The photo an edited record keeps: the uploaded file's new name, or else the posted `photoName`. */
  function EditedPhoto(upload: Option<string>, photoName: Option<string>): (photo: Option<string>)
    ensures upload.None? ==> photo == photoName
    ensures upload.Some? ==> photo == upload
  {
    if upload.Some? then upload else photoName
  }

  /**
   * The old photo file an upload replaces in an edit: none without an upload and none for the
   * default photo. With an upload and a null `photoName`, building the file path throws.
   */
  function ReplacedPhotoFile(upload: Option<string>, photoName: Option<string>): (r: Result<Option<string>, string>)
    ensures r.Err? <==> upload.Some? && photoName.None?
    ensures r.Ok? && r.value.Some? ==> upload.Some? && r.value == photoName && r.value.value != DefaultPhoto
    ensures upload.Some? && photoName.Some? && photoName.value != DefaultPhoto ==> r == Ok(photoName)
  {
    if upload.None? then Ok(None)
    else if photoName.None? then Err("ArgumentNullException")
    else if photoName.value == DefaultPhoto then Ok(None)
    else Ok(photoName)
  }

  /**
   * The photo file deleted with a record: every photo but the default one. A null photo is not
   * the default one, and building its file path throws.
   */
  function RemovedPhotoFile(photo: Option<string>): (r: Result<Option<string>, string>)
    ensures r.Err? <==> photo.None?
    ensures r.Ok? ==> (r.value.Some? <==> photo.value != DefaultPhoto)
    ensures r.Ok? && r.value.Some? ==> r.value == photo
  {
    if photo.None? then Err("ArgumentNullException")
    else if photo.value == DefaultPhoto then Ok(None)
    else Ok(photo)
  }
}
