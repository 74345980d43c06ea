/** The password-gated admin dashboard: login and logout, the tab that decides the
    table and storage folder, adding a project or post with its uploaded images, and
    deleting one with its stored images. The backend is modelled by the requests the
    dashboard sends to it (`requests`), in order; its answers are parameters. */
module Admin {
  import opened Wrappers
  import opened Text

  /** The three sidebar tabs. */
  datatype Tab = Projects | Blogs | Messages

  /** The tab's `activeTab` string, also the table `deleteItem` deletes from. */
  function TabName(tab: Tab): (name: string)
    ensures name == "projects" <==> tab == Projects
    ensures name == "blogs" <==> tab == Blogs
    ensures name == "messages" <==> tab == Messages
  {
    match tab
    case Projects => "projects"
    case Blogs => "blogs"
    case Messages => "messages"
  }

  /** The table an added item goes to: every tab but "projects" means "blogs". */
  function TableFor(tab: Tab): (table: string)
    ensures table == "projects" <==> tab == Projects
    ensures table == "blogs" <==> tab != Projects
  {
    if tab == Projects then "projects" else "blogs"
  }

  /** The storage folder of a tab's images. */
  function FolderFor(tab: Tab): (folder: string)
    ensures folder == "project-images" <==> tab == Projects
    ensures folder == "blog-images" <==> tab != Projects
    ensures SlashTerminated(folder + "/")
  {
    if tab == Projects then "project-images" else "blog-images"
  }

  /** The add form's four text fields. */
  datatype ItemForm = ItemForm(title_ar: string, title_en: string, description_ar: string, description_en: string)

  const EmptyItemForm := ItemForm("", "", "", "")

  /** A row inserted into `projects` or `blogs`. */
  datatype ItemRow = ItemRow(title: string, title_en: string, description: string, description_en: string, images_urls: seq<string>)

  /** The inserted row: the Arabic fields go to the unsuffixed columns. */
  function RowOf(form: ItemForm, urls: seq<string>): (row: ItemRow)
    ensures row.title == form.title_ar && row.title_en == form.title_en
    ensures row.description == form.description_ar && row.description_en == form.description_en
    ensures row.images_urls == urls
  {
    ItemRow(form.title_ar, form.title_en, form.description_ar, form.description_en, urls)
  }

  /** The form a row was inserted from. */
  function FormOf(row: ItemRow): (form: ItemForm)
    ensures form.title_ar == row.title && form.description_ar == row.description
  {
    ItemForm(row.title, row.title_en, row.description, row.description_en)
  }

  /** The insert loses nothing: form and image list are read back from the row. */
  lemma RowOfRoundTrip(form: ItemForm, urls: seq<string>)
    ensures FormOf(RowOf(form, urls)) == form && RowOf(form, urls).images_urls == urls
  {
  }

  /** A fetched project or post as the delete button passes it; `images_urls` may be null. */
  datatype Item = Item(id: int, images_urls: Option<seq<string>>)

  /** A file chosen in the file input. */
  datatype ImageFile = ImageFile(name: string)

  /** What happens to one selected file: compression throws, or the file is named
      `<stamp>.webp` and uploaded, the upload succeeding (`stored`) or not. The stamp
      stands for `${Date.now()}_${Math.random().toString(36).substring(7)}`. */
  datatype FileOutcome = CompressionFails | Compressed(stamp: string, stored: bool)

  predicate IsStored(x: FileOutcome) {
    x.Compressed? && x.stored
  }

  /** `s` starts with `prefix`. */
  predicate StartsWith(s: string, prefix: string) {
    |prefix| <= |s| && s[..|prefix|] == prefix
  }

  /** `${folder}/${fileName}` with `fileName = ${stamp}.webp`. */
  function UploadPath(folder: string, stamp: string): (path: string)
    ensures StartsWith(path, folder + "/") && EndsWith(path, ".webp")
  {
    var path := folder + "/" + stamp + ".webp";
    assert path[..|folder + "/"|] == folder + "/";
    assert path[|path| - 5..] == ".webp";
    path
  }

  /** `getPublicUrl(path)`: the storage client's public prefix for the bucket,
      followed by the object path. */
  function PublicUrl(base: string, path: string): (url: string)
    ensures EndsWith(url, path)
  {
    assert (base + path)[|base|..] == path;
    base + path
  }

  /** The requests the dashboard sends to the backend. */
  datatype Request =
    | LookupPassword(password: string)        // app_pass row whose password_hash equals it
    | FetchAll                                // fetchData: contacts, projects and blogs
    | Upload(path: string)                    // an object in the "projects" bucket
    | Insert(table: string, row: ItemRow)
    | RemoveObjects(paths: seq<string>)       // objects of the "projects" bucket
    | DeleteRow(table: string, id: int)

  /** The upload requests of a run of the image loop: one per file that compressed. */
  function UploadRequests(outcomes: seq<FileOutcome>, folder: string): (reqs: seq<Request>)
    ensures |reqs| <= |outcomes|
    ensures forall r :: r in reqs ==> r.Upload? && StartsWith(r.path, folder + "/") && EndsWith(r.path, ".webp")
    decreases |outcomes|
  {
    if |outcomes| == 0 then []
    else
      var last := outcomes[|outcomes| - 1];
      UploadRequests(outcomes[..|outcomes| - 1], folder)
        + (if last.Compressed? then [Upload(UploadPath(folder, last.stamp))] else [])
  }

  /** The public URLs the image loop collects: one per stored file, in file order. */
  function UploadedUrls(outcomes: seq<FileOutcome>, folder: string, base: string): (urls: seq<string>)
    ensures |urls| <= |outcomes|
    decreases |outcomes|
  {
    if |outcomes| == 0 then []
    else
      var last := outcomes[|outcomes| - 1];
      UploadedUrls(outcomes[..|outcomes| - 1], folder, base)
        + (if IsStored(last) then [PublicUrl(base, UploadPath(folder, last.stamp))] else [])
  }

  /** The object paths of the stored files, in file order. */
  function StoredPaths(outcomes: seq<FileOutcome>, folder: string): (paths: seq<string>)
    ensures |paths| <= |outcomes|
    decreases |outcomes|
  {
    if |outcomes| == 0 then []
    else
      var last := outcomes[|outcomes| - 1];
      StoredPaths(outcomes[..|outcomes| - 1], folder)
        + (if IsStored(last) then [UploadPath(folder, last.stamp)] else [])
  }

  /** The loop's result over two runs of files is the concatenation of their results. */
  lemma {:induction false} UploadedUrlsAppend(a: seq<FileOutcome>, b: seq<FileOutcome>, folder: string, base: string)
    ensures UploadedUrls(a + b, folder, base) == UploadedUrls(a, folder, base) + UploadedUrls(b, folder, base)
    decreases |b|
  {
    if |b| > 0 {
      var b' := b[..|b| - 1];
      assert (a + b)[..|a + b| - 1] == a + b';
      UploadedUrlsAppend(a, b', folder, base);
    } else {
      assert a + b == a;
    }
  }

  /** A file that fails (in compression or upload) is skipped and the loop goes on. */
  lemma FailedFileSkipped(a: seq<FileOutcome>, x: FileOutcome, b: seq<FileOutcome>, folder: string, base: string)
    requires !IsStored(x)
    ensures UploadedUrls(a + [x] + b, folder, base) == UploadedUrls(a, folder, base) + UploadedUrls(b, folder, base)
  {
    assert (a + [x])[..|a|] == a;
    UploadedUrlsAppend(a + [x], b, folder, base);
  }

  /** A stored file contributes its URL exactly at its position among the files. */
  lemma StoredFileKept(a: seq<FileOutcome>, stamp: string, b: seq<FileOutcome>, folder: string, base: string)
    ensures UploadedUrls(a + [Compressed(stamp, true)] + b, folder, base)
         == UploadedUrls(a, folder, base) + [PublicUrl(base, UploadPath(folder, stamp))] + UploadedUrls(b, folder, base)
  {
    var x := Compressed(stamp, true);
    assert (a + [x])[..|a|] == a;
    UploadedUrlsAppend(a + [x], b, folder, base);
  }

  /** Every selected file yields a URL iff every one is stored. */
  lemma {:induction false} AllUrlsIffAllStored(outcomes: seq<FileOutcome>, folder: string, base: string)
    ensures |UploadedUrls(outcomes, folder, base)| == |outcomes|
        <==> forall k :: 0 <= k < |outcomes| ==> IsStored(outcomes[k])
    decreases |outcomes|
  {
    if |outcomes| > 0 {
      var init := outcomes[..|outcomes| - 1];
      AllUrlsIffAllStored(init, folder, base);
      assert forall k :: 0 <= k < |init| ==> init[k] == outcomes[k];
    }
  }

  /** When no file is stored the list is empty, and the row is still inserted with
      an empty `images_urls`. */
  lemma {:induction false} NoStoredFileNoUrls(outcomes: seq<FileOutcome>, folder: string, base: string)
    requires forall k :: 0 <= k < |outcomes| ==> !IsStored(outcomes[k])
    ensures UploadedUrls(outcomes, folder, base) == []
    decreases |outcomes|
  {
    if |outcomes| > 0 {
      NoStoredFileNoUrls(outcomes[..|outcomes| - 1], folder, base);
    }
  }

  /** `deleteItem`'s path for one URL: split on `${folder}/` and re-prefix the last piece. */
  function StoragePath(url: string, folder: string): (path: string)
    ensures StartsWith(path, folder + "/")
    ensures !Includes(url, folder + "/") ==> path == folder + "/" + url
    ensures Includes(url, folder + "/") ==> EndsWith(url, path)
  {
    var sep := folder + "/";
    var last := LastPiece(url, sep);
    if Includes(url, sep) then
      LastPieceFollowsSeparator(url, sep);
      assert (sep + last)[..|sep|] == sep;
      sep + last
    else
      LastPieceWithoutSeparator(url, sep);
      assert (sep + last)[..|sep|] == sep;
      sep + last
  }

  /** For the two image folders, the path keeps the text after the LAST occurrence
      of `${folder}/` in the URL. */
  lemma StoragePathAfterLastOccurrence(url: string, tab: Tab)
    requires Includes(url, FolderFor(tab) + "/")
    ensures forall m :: |url| - |StoragePath(url, FolderFor(tab))| < m ==> !OccursAt(url, FolderFor(tab) + "/", m)
  {
    var sep := FolderFor(tab) + "/";
    LastPieceFollowsSeparator(url, sep);
    LastOccurrence(url, sep, LastPiece(url, sep));
  }

  /** The paths removed from storage: one per URL, in the same order. */
  function StoragePaths(urls: seq<string>, folder: string): (paths: seq<string>)
    ensures |paths| == |urls|
    ensures forall k :: 0 <= k < |urls| ==> paths[k] == StoragePath(urls[k], folder)
    ensures forall p :: p in paths ==> StartsWith(p, folder + "/")
  {
    seq(|urls|, k requires 0 <= k < |urls| => StoragePath(urls[k], folder))
  }

  /** Deleting inverts uploading: the path derived from an uploaded object's public
      URL is the path it was uploaded to, whatever the public prefix holds. */
  lemma DeletePathOfUploadedUrl(base: string, tab: Tab, stamp: string)
    requires '/' !in stamp
    ensures StoragePath(PublicUrl(base, UploadPath(FolderFor(tab), stamp)), FolderFor(tab))
         == UploadPath(FolderFor(tab), stamp)
  {
    var folder := FolderFor(tab);
    var name := stamp + ".webp";
    assert '/' !in name by {
      assert forall k :: 0 <= k < |name| ==> name[k] == if k < |stamp| then stamp[k] else ".webp"[k - |stamp|];
    }
    assert PublicUrl(base, UploadPath(folder, stamp)) == base + (folder + "/") + name;
    LastPieceAfter(base, folder + "/", name);
  }

  /** The images an item was created with are exactly the objects its deletion
      removes, when no stamp holds a '/'. */
  lemma {:induction false} DeleteRemovesStoredObjects(outcomes: seq<FileOutcome>, tab: Tab, base: string)
    requires forall x :: x in outcomes && x.Compressed? ==> '/' !in x.stamp
    ensures StoragePaths(UploadedUrls(outcomes, FolderFor(tab), base), FolderFor(tab))
         == StoredPaths(outcomes, FolderFor(tab))
    decreases |outcomes|
  {
    var folder := FolderFor(tab);
    if |outcomes| > 0 {
      var init := outcomes[..|outcomes| - 1];
      var last := outcomes[|outcomes| - 1];
      assert forall x :: x in init ==> x in outcomes;
      DeleteRemovesStoredObjects(init, tab, base);
      if IsStored(last) {
        DeletePathOfUploadedUrl(base, tab, last.stamp);
      }
    }
  }

  /** The storage removal `deleteItem` sends: none when the item has no image list or
      an empty one, else one request for all derived paths. */
  function RemovalRequests(item: Item, kind: Tab): (reqs: seq<Request>)
    ensures reqs == [] <==> item.images_urls.None? || |item.images_urls.value| == 0
    ensures reqs != [] ==> reqs == [RemoveObjects(StoragePaths(item.images_urls.value, FolderFor(kind)))]
  {
    match item.images_urls
    case Some(urls) => if |urls| > 0 then [RemoveObjects(StoragePaths(urls, FolderFor(kind)))] else []
    case None => []
  }

  /** The answer to the password lookup: a row, no row, or a thrown error. */
  datatype LoginAnswer = RowFound | NoRow | Unreachable

  const WrongPassword := "كلمة المرور غير صحيحة!"
  const ConnectionFailed := "فشل الاتصال بقاعدة البيانات"

  /** The inline error after a login attempt. */
  function LoginError(answer: LoginAnswer): (message: string)
    ensures message == "" <==> answer == RowFound
    ensures message == WrongPassword <==> answer == NoRow
    ensures message == ConnectionFailed <==> answer == Unreachable
  {
    match answer
    case RowFound => ""
    case NoRow => WrongPassword
    case Unreachable => ConnectionFailed
  }

  /** The alert `handleAddItem` shows. */
  datatype AddNotice = SelectImageFirst | Published | InsertFailed

  /** The alert `deleteItem` shows, or that it stopped at the confirmation. */
  datatype DeleteNotice = Cancelled | Deleted | DeleteFailed

  class AdminDashboard {
    var isLoggedIn: bool
    /** `sessionStorage.getItem("isAdmin") === "true"`. */
    var sessionIsAdmin: bool
    var password: string
    var loading: bool
    var error: string
    var activeTab: Tab
    var formData: ItemForm
    var selectedFiles: seq<ImageFile>
    /** Everything sent to the backend so far, oldest first. */
    var requests: seq<Request>

    /** The initial state and the mount effect: a session already marked as admin
        is logged in and fetches the lists. */
    constructor (sessionFlag: bool)
      ensures isLoggedIn == sessionFlag && sessionIsAdmin == sessionFlag
      ensures password == "" && !loading && error == "" && activeTab == Projects
      ensures formData == EmptyItemForm && selectedFiles == []
      ensures requests == if sessionFlag then [FetchAll] else []
    {
      isLoggedIn := false;
      sessionIsAdmin := sessionFlag;
      password := "";
      loading := false;
      error := "";
      activeTab := Projects;
      formData := EmptyItemForm;
      selectedFiles := [];
      requests := [];
      if sessionFlag {
        isLoggedIn := true;
        requests := requests + [FetchAll];
      }
    }

    method SetPassword(p: string)
      modifies this`password
      ensures password == p
    {
      password := p;
    }

    method SelectTab(tab: Tab)
      modifies this`activeTab
      ensures activeTab == tab
    {
      activeTab := tab;
    }

    method SelectFiles(files: seq<ImageFile>)
      modifies this`selectedFiles
      ensures selectedFiles == files
    {
      selectedFiles := files;
    }

    method EditForm(form: ItemForm)
      modifies this`formData
      ensures formData == form
    {
      formData := form;
    }

    /** `handleLogin`: look the password up; a row logs in and fetches, otherwise an
        error is shown and the login state is left as it was. */
    method HandleLogin(answer: LoginAnswer)
      modifies this`loading, this`error, this`requests, this`isLoggedIn, this`sessionIsAdmin
      ensures requests == old(requests) + [LookupPassword(password)] + (if answer == RowFound then [FetchAll] else [])
      ensures answer == RowFound ==> isLoggedIn && sessionIsAdmin
      ensures answer != RowFound ==> isLoggedIn == old(isLoggedIn) && sessionIsAdmin == old(sessionIsAdmin)
      ensures error == LoginError(answer) && !loading
    {
      loading := true;
      error := "";
      requests := requests + [LookupPassword(password)];
      match answer {
        case RowFound =>
          isLoggedIn := true;
          sessionIsAdmin := true;
          requests := requests + [FetchAll];
        case NoRow =>
          error := WrongPassword;
        case Unreachable =>
          error := ConnectionFailed;
      }
      loading := false;
    }

    /** The logout button: clear the session and leave the dashboard. */
    method Logout()
      modifies this`isLoggedIn, this`sessionIsAdmin
      ensures !isLoggedIn && !sessionIsAdmin
    {
      sessionIsAdmin := false;
      isLoggedIn := false;
    }

    /** `processAndUploadImages(folder)`: for each selected file, compress, name and
        upload it, keeping its public URL; a file that fails is skipped. */
    method ProcessAndUploadImages(folder: string, outcomes: seq<FileOutcome>, base: string) returns (urls: seq<string>)
      requires |outcomes| == |selectedFiles|
      modifies this`requests
      ensures urls == UploadedUrls(outcomes, folder, base)
      ensures requests == old(requests) + UploadRequests(outcomes, folder)
    {
      urls := [];
      var i := 0;
      while i < |selectedFiles|
        invariant 0 <= i <= |outcomes|
        invariant urls == UploadedUrls(outcomes[..i], folder, base)
        invariant requests == old(requests) + UploadRequests(outcomes[..i], folder)
        decreases |selectedFiles| - i
      {
        assert outcomes[..i + 1][..i] == outcomes[..i];
        match outcomes[i] {
          case CompressionFails =>
          case Compressed(stamp, stored) =>
            var filePath := UploadPath(folder, stamp);
            requests := requests + [Upload(filePath)];
            if stored {
              urls := urls + [PublicUrl(base, filePath)];
            }
        }
        i := i + 1;
      }
      assert outcomes[..i] == outcomes;
    }

    /** `handleAddItem`: with no file selected, only an alert; otherwise upload the
        images, insert the row into the tab's table, and on success clear the form. */
    method HandleAddItem(outcomes: seq<FileOutcome>, base: string, inserted: bool) returns (notice: AddNotice)
      requires |outcomes| == |selectedFiles|
      modifies this`requests, this`formData, this`selectedFiles, this`loading
      ensures old(|selectedFiles|) == 0 ==> notice == SelectImageFirst && unchanged(this)
      ensures old(|selectedFiles|) > 0 ==>
        var folder := FolderFor(activeTab);
        requests == old(requests) + UploadRequests(outcomes, folder)
          + [Insert(TableFor(activeTab), RowOf(old(formData), UploadedUrls(outcomes, folder, base)))]
          + (if inserted then [FetchAll] else [])
      ensures old(|selectedFiles|) > 0 && inserted ==>
        notice == Published && formData == EmptyItemForm && selectedFiles == [] && !loading
      ensures old(|selectedFiles|) > 0 && !inserted ==>
        notice == InsertFailed && formData == old(formData) && selectedFiles == old(selectedFiles) && !loading
    {
      if |selectedFiles| == 0 {
        return SelectImageFirst;
      }
      loading := true;
      var table := TableFor(activeTab);
      var folder := FolderFor(activeTab);
      var imageUrls := ProcessAndUploadImages(folder, outcomes, base);
      notice := InsertItem(table, imageUrls, inserted);
    }

    /** The rest of `handleAddItem` once the images are uploaded: insert the row,
        clear the form and the files on success, and end the loading state. */
    method InsertItem(table: string, imageUrls: seq<string>, inserted: bool) returns (notice: AddNotice)
      modifies this`requests, this`formData, this`selectedFiles, this`loading
      ensures requests == old(requests) + [Insert(table, RowOf(old(formData), imageUrls))]
        + (if inserted then [FetchAll] else [])
      ensures inserted ==> notice == Published && formData == EmptyItemForm && selectedFiles == []
      ensures !inserted ==> notice == InsertFailed && formData == old(formData) && selectedFiles == old(selectedFiles)
      ensures !loading
    {
      requests := requests + [Insert(table, RowOf(formData, imageUrls))];
      if inserted {
        notice := Published;
        formData := EmptyItemForm;
        selectedFiles := [];
        requests := requests + [FetchAll];
      } else {
        notice := InsertFailed;
      }
      loading := false;
    }

    /** `deleteItem(item, type)`: unless cancelled, remove the item's images from
        storage, then delete its row from the table named by the tab. */
    method DeleteItem(item: Item, kind: Tab, confirmed: bool, deleted: bool) returns (notice: DeleteNotice)
      modifies this`requests, this`loading
      ensures !confirmed ==> notice == Cancelled && unchanged(this)
      ensures confirmed ==>
        requests == old(requests) + RemovalRequests(item, kind) + [DeleteRow(TabName(kind), item.id)]
          + (if deleted then [FetchAll] else [])
      ensures confirmed ==> notice == (if deleted then Deleted else DeleteFailed) && !loading
    {
      if !confirmed {
        return Cancelled;
      }
      loading := true;
      if item.images_urls.Some? && |item.images_urls.value| > 0 {
        var filesToRemove := StoragePaths(item.images_urls.value, FolderFor(kind));
        requests := requests + [RemoveObjects(filesToRemove)];
      }
      requests := requests + [DeleteRow(TabName(kind), item.id)];
      if deleted {
        requests := requests + [FetchAll];
        notice := Deleted;
      } else {
        notice := DeleteFailed;
      }
      loading := false;
    }
  }
}
