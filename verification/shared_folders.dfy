/**
 * The shared-folder catalog (`shared_folders` table): the create form's validation chain, the
 * path of a local folder, the listing shown for a center, and the soft delete.
 * `MkdirAll` is a parameter: it answers whether the directory could be created.
 */
module SharedFolders {
  import opened Wrappers
  import opened Text
  import opened Tables
  import opened Sorting
  import opened Accounts
  import opened Common

  /** A row of `shared_folders`; `centerId` None is a global folder. */
  datatype SharedFolder = SharedFolder(
    id: int,
    centerId: Option<int>,
    name: string,
    description: string,
    folderType: string,
    cloudUrl: Option<string>,
    localPath: Option<string>,
    isActive: bool,
    createdAt: int)

  /** The fields the create form posts. */
  datatype FolderForm = FolderForm(
    name: string,
    description: string,
    folderType: string,
    cloudUrl: string,
    centerId: string,
    isGlobal: string)

  const MissingNameOrType: string := "El nombre y el tipo de carpeta son requeridos"
  const InvalidType: string := "Tipo de carpeta inválido"
  const MissingCloudUrl: string := "La URL de la carpeta en la nube es requerida para carpetas cloud"
  const FolderFormTemplate: string := "carpeta_compartida_form.html"
  const FoldersPath: string := "/carpetas-compartidas"

  predicate KnownType(t: string) {
    t == "local" || t == "cloud"
  }

  /**
   * The validation chain of `handleSharedFolderCreate`: the first failing check names the error.
   */
  function ValidateFolderForm(form: FolderForm): (err: Option<string>)
    ensures err.None? <==> form.name != "" && KnownType(form.folderType) && (form.folderType == "cloud" ==> form.cloudUrl != "")
    ensures (form.name == "" || form.folderType == "") ==> err == Some(MissingNameOrType)
    ensures form.name != "" && form.folderType != "" && !KnownType(form.folderType) ==> err == Some(InvalidType)
    ensures err == Some(MissingCloudUrl) <==> form.name != "" && form.folderType == "cloud" && form.cloudUrl == ""
  {
    if form.name == "" || form.folderType == "" then Some(MissingNameOrType)
    else if !KnownType(form.folderType) then Some(InvalidType)
    else if form.folderType == "cloud" && form.cloudUrl == "" then Some(MissingCloudUrl)
    else None
  }

  /** `filepath.Join("shared_folders", "shared_local_" + name)`, relative to the data directory. */
  function LocalFolderPath(name: string): (p: string)
    ensures |p| == |"shared_folders/shared_local_"| + |name|
    ensures p[..|"shared_folders/shared_local_"|] == "shared_folders/shared_local_"
    ensures p[|"shared_folders/shared_local_"|..] == name
  {
    "shared_folders/shared_local_" + name
  }

  /** Two folders get the same directory exactly when they have the same name. */
  lemma LocalFolderPathInjective(a: string, b: string)
    ensures LocalFolderPath(a) == LocalFolderPath(b) <==> a == b
  {
    if LocalFolderPath(a) == LocalFolderPath(b) {
      assert a == LocalFolderPath(a)[|"shared_folders/shared_local_"|..];
    }
  }

  /**
   * The center of a new folder as the code computes it: none for a global folder; otherwise the
   * posted `center_id`, or the `centro` cookie when that is empty, read with `Atoi`, and NULL
   * when that fails. The cookie holds a center NAME, so the fallback almost never yields an id.
   */
  function FolderCenterAsWritten(form: FolderForm, centro: string): (c: Option<int>)
    ensures form.isGlobal == "1" ==> c.None?
    ensures form.isGlobal != "1" && form.centerId != "" ==> c == Atoi(form.centerId)
    ensures form.isGlobal != "1" && form.centerId == "" ==> c == Atoi(centro)
  {
    if form.isGlobal == "1" then None
    else Atoi(if form.centerId == "" then centro else form.centerId)
  }

  /**
   * The center the fallback is meant to give: the posted `center_id` when there is one, and
   * otherwise the id of the center named by the `centro` cookie.
   */
  function FolderCenter(form: FolderForm, centro: string, centers: seq<Center>): (c: Option<int>)
    ensures form.isGlobal == "1" ==> c.None?
    ensures form.isGlobal != "1" && form.centerId != "" ==> c == Atoi(form.centerId)
    ensures form.isGlobal != "1" && form.centerId == "" ==> c == GetCenterID(centers, centro)
  {
    if form.isGlobal == "1" then None
    else if form.centerId == "" then GetCenterID(centers, centro)
    else Atoi(form.centerId)
  }

  /**
   * A non-global folder posted without `center_id` from a center whose name is not a number is
   * stored as a GLOBAL folder by the code as written, and so is shown to every center; the
   * intended reading stores it under the current center.
   */
  lemma CenterFallbackMakesFolderGlobal()
    ensures var centers := [Center(1, "Colegio Central", "Europe/Madrid")];
            var form := FolderForm("Fotos", "", "local", "", "", "");
            FolderCenterAsWritten(form, "Colegio Central").None? &&
            FolderCenter(form, "Colegio Central", centers) == Some(1)
  {
    var centers := [Center(1, "Colegio Central", "Europe/Madrid")];
    assert centers[0].name == "Colegio Central";
    assert 'C' !in "0123456789";
  }

  /** The row `createSharedFolder` inserts: active, with the cloud URL stored even when empty. */
  function NewFolder(id: int, center: Option<int>, form: FolderForm, now: int): (f: SharedFolder)
    ensures f.isActive && f.name == form.name && f.folderType == form.folderType && f.centerId == center
    ensures f.cloudUrl == Some(form.cloudUrl)
    ensures f.folderType == "local" ==> f.localPath == Some(LocalFolderPath(form.name))
    ensures f.folderType != "local" ==> f.localPath.None?
  {
    SharedFolder(id, center, form.name, form.description, form.folderType, Some(form.cloudUrl),
                 if form.folderType == "local" then Some(LocalFolderPath(form.name)) else None, true, now)
  }

  /** The row id SQLite gives the next insert. */
  function NextFolderId(rows: seq<SharedFolder>): (id: int)
    ensures forall i :: 0 <= i < |rows| ==> rows[i].id < id
  {
    NextKey(rows, (f: SharedFolder) => f.id)
  }

  /** Shown to the center with id `centerId`: active, and either global or that center's. */
  predicate VisibleIn(f: SharedFolder, centerId: int) {
    f.isActive && (f.centerId == Some(centerId) || f.centerId.None?)
  }

  /** `ORDER BY center_id IS NULL DESC, created_at DESC`: global folders first, then newest first. */
  function GlobalFirstNewest(): (SharedFolder, SharedFolder) -> bool {
    (a: SharedFolder, b: SharedFolder) =>
      (a.centerId.None? && b.centerId.Some?) || (a.centerId.None? == b.centerId.None? && a.createdAt >= b.createdAt)
  }

  lemma GlobalFirstNewestIsTotal()
    ensures TotalPreorder(GlobalFirstNewest())
  {
    var le := GlobalFirstNewest();
    forall a: SharedFolder, b: SharedFolder ensures le(a, b) || le(b, a) {
      if a.centerId.None? != b.centerId.None? {
        assert le(a, b) || le(b, a);
      }
    }
  }

  /** The rows `getSharedFolders` selects for a center. */
  function VisibleInCenter(centerId: int): SharedFolder -> bool {
    (f: SharedFolder) => VisibleIn(f, centerId)
  }

  /**
   * `getSharedFolders`: an unknown center name is an error; otherwise the folders visible in that
   * center, global ones first and then newest first.
   */
  function GetSharedFolders(rows: seq<SharedFolder>, centers: seq<Center>, centro: string): (r: Option<seq<SharedFolder>>)
    ensures r.None? <==> GetCenterID(centers, centro).None?
    ensures r.Some? ==> multiset(r.value) == multiset(Where(rows, VisibleInCenter(GetCenterID(centers, centro).value)))
    ensures r.Some? ==> forall i :: 0 <= i < |r.value| ==> r.value[i] in rows && VisibleIn(r.value[i], GetCenterID(centers, centro).value)
    ensures r.Some? ==> forall i :: 0 <= i < |rows| && VisibleIn(rows[i], GetCenterID(centers, centro).value) ==> rows[i] in r.value
    ensures r.Some? ==> forall i, j :: 0 <= i < j < |r.value| && r.value[j].centerId.None? ==> r.value[i].centerId.None?
    ensures r.Some? ==> forall i, j :: 0 <= i < j < |r.value| && r.value[i].centerId.None? == r.value[j].centerId.None? ==>
      r.value[i].createdAt >= r.value[j].createdAt
  {
    match GetCenterID(centers, centro)
    case None => None
    case Some(centerId) =>
      var selected := Where(rows, VisibleInCenter(centerId));
      var sorted := InsertionSort(selected, GlobalFirstNewest());
      GlobalFirstNewestIsTotal();
      InsertionSortSorted(selected, GlobalFirstNewest());
      assert forall i :: 0 <= i < |sorted| ==> sorted[i] in selected by {
        forall i | 0 <= i < |sorted| ensures sorted[i] in selected {
          assert sorted[i] in multiset(sorted);
        }
      }
      assert forall i :: 0 <= i < |selected| ==> selected[i] in sorted by {
        forall i | 0 <= i < |selected| ensures selected[i] in sorted {
          assert selected[i] in multiset(selected);
        }
      }
      Some(sorted)
  }

  /** `getSharedFolderByID`: the folder with that id, active or not. */
  function GetSharedFolderByID(rows: seq<SharedFolder>, idParam: string): (r: Option<SharedFolder>)
    ensures r.Some? ==> r.value in rows && IdParamMatches(idParam, r.value.id)
    ensures r.None? <==> forall i :: 0 <= i < |rows| ==> !IdParamMatches(idParam, rows[i].id)
  {
    match FirstWhere(rows, (f: SharedFolder) => IdParamMatches(idParam, f.id))
    case None => None
    case Some(i) => Some(rows[i])
  }

  /** `UPDATE shared_folders SET is_active = 0 WHERE id = ?`. */
  function SoftDelete(rows: seq<SharedFolder>, idParam: string): seq<SharedFolder> {
    UpdateWhere(rows, (f: SharedFolder) => IdParamMatches(idParam, f.id), (f: SharedFolder) => f.(isActive := false))
  }

  /**
   * A soft delete only clears `is_active` of the matching rows: no row disappears, names, types
   * and local paths stay, and a deleted folder is shown to no center.
   */
  lemma SoftDeleteKeepsRows(rows: seq<SharedFolder>, idParam: string, centerId: int)
    ensures |SoftDelete(rows, idParam)| == |rows|
    ensures forall i :: 0 <= i < |rows| ==>
      SoftDelete(rows, idParam)[i] == rows[i].(isActive := rows[i].isActive && !IdParamMatches(idParam, rows[i].id))
    ensures forall i :: 0 <= i < |rows| && IdParamMatches(idParam, rows[i].id) ==> !VisibleIn(SoftDelete(rows, idParam)[i], centerId)
  {
  }

  /** The shared-folder catalog. */
  class FolderCatalog {
    var rows: seq<SharedFolder>

    constructor ()
      ensures rows == []
    {
      rows := [];
    }

    /**
     * `CarpetasCompartidasCrear` with a POST, down to `handleSharedFolderCreate`: the admin gate,
     * the `centro` cookie, the validation chain, the directory of a local folder, then the row,
     * whose center is read from the cookie as written (see `CenterFallbackMakesFolderGlobal`).
     */
    method Create(user: Option<User>, cookies: map<string, string>, form: FolderForm,
                  mkdirSucceeds: string -> bool, now: int) returns (resp: Response)
      modifies this
      ensures !HasAccess(user, AdminPermission) ==> rows == old(rows) && resp.Redirect? == user.None?
      ensures HasAccess(user, AdminPermission) && SelectedCenter(cookies).None? ==>
        rows == old(rows) && resp == Redirect(ChooseCenterPath)
      ensures HasAccess(user, AdminPermission) && SelectedCenter(cookies).Some? && ValidateFolderForm(form).Some? ==>
        rows == old(rows) && resp == Form(FolderFormTemplate, ValidateFolderForm(form).value)
      ensures (HasAccess(user, AdminPermission) && SelectedCenter(cookies).Some? && ValidateFolderForm(form).None? &&
               form.folderType == "local" && !mkdirSucceeds(LocalFolderPath(form.name))) ==>
        rows == old(rows) && resp.Form?
      ensures rows != old(rows) <==>
        (HasAccess(user, AdminPermission) && SelectedCenter(cookies).Some? && ValidateFolderForm(form).None? &&
         (form.folderType == "local" ==> mkdirSucceeds(LocalFolderPath(form.name))))
      ensures rows != old(rows) ==>
        rows == old(rows) + [NewFolder(NextFolderId(old(rows)), FolderCenterAsWritten(form, SelectedCenter(cookies).value), form, now)] &&
        resp == Redirect(FoldersPath)
    {
      var stop := AdminGate(user);
      if stop.Some? {
        return stop.value;
      }
      var centro := SelectedCenter(cookies);
      if centro.None? {
        return Redirect(ChooseCenterPath);
      }
      var err := ValidateFolderForm(form);
      if err.Some? {
        return Form(FolderFormTemplate, err.value);
      }
      var center := FolderCenterAsWritten(form, centro.value);
      if form.folderType == "local" && !mkdirSucceeds(LocalFolderPath(form.name)) {
        return Form(FolderFormTemplate, "Error al crear la carpeta local");
      }
      var folder := NewFolder(NextFolderId(rows), center, form, now);
      rows := rows + [folder];
      assert rows[|rows| - 1] == folder;
      return Redirect(FoldersPath);
    }

    /**
     * `CarpetasCompartidasEliminar`: the admin gate, 400 for an empty id, 404 for an unknown id,
     * and otherwise the soft delete; the directory on disk is left alone.
     */
    method Delete(user: Option<User>, idParam: string) returns (resp: Response)
      modifies this
      ensures !HasAccess(user, AdminPermission) ==> rows == old(rows) && resp.Redirect? == user.None?
      ensures HasAccess(user, AdminPermission) && idParam == "" ==> rows == old(rows) && resp == Status(400, "ID de carpeta requerido")
      ensures HasAccess(user, AdminPermission) && idParam != "" && GetSharedFolderByID(old(rows), idParam).None? ==>
        rows == old(rows) && resp == Status(404, "Carpeta no encontrada")
      ensures HasAccess(user, AdminPermission) && idParam != "" && GetSharedFolderByID(old(rows), idParam).Some? ==>
        rows == SoftDelete(old(rows), idParam) && resp == Redirect(FoldersPath)
    {
      var stop := AdminGate(user);
      if stop.Some? {
        return stop.value;
      }
      if idParam == "" {
        return Status(400, "ID de carpeta requerido");
      }
      var folder := GetSharedFolderByID(rows, idParam);
      if folder.None? {
        return Status(404, "Carpeta no encontrada");
      }
      rows := SoftDelete(rows, idParam);
      return Redirect(FoldersPath);
    }
  }
}
