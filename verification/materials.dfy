/**
 * The inventory handlers of `internal/handlers/materials.go`: the quantity parsing, the form
 * check, and the `materials` table updates scoped to the selected center. The selected center
 * is the `centro` cookie, which holds a center name.
 */
module Materials {
  import opened Wrappers
  import opened Text
  import opened Tables
  import opened Accounts
  import opened Common
  import opened Sorting

  /** A row of the `materials` table; times are Unix seconds. */
  datatype Material = Material(
    id: int,
    centerId: int,
    name: string,
    photoPath: Option<string>,
    unit: string,
    availableQuantity: int,
    minimumQuantity: int,
    notes: string,
    category: string,
    createdAt: int,
    updatedAt: int)

  /** The posted material form. */
  datatype MaterialForm = MaterialForm(
    name: string,
    unit: string,
    category: string,
    availableQuantity: string,
    minimumQuantity: string,
    notes: string)

  const MaterialsPath: string := "/materiales"
  const MaterialTemplate: string := "material_form.html"
  const MissingFields: string := "El nombre, la unidad y la categoría son requeridos"
  const CenterNotFound: string := "/materiales?error=Centro no encontrado"
  const MissingId: string := "/materiales?error=ID de material requerido"
  const NotFoundOrForbidden: string := "/materiales?error=Material no encontrado o sin permisos"

  /** `parseIntSafe`: the empty text is 0, anything else is `strconv.Atoi`. */
  function ParseIntSafe(s: string): (r: Option<int>)
    ensures s == "" ==> r == Some(0)
    ensures s != "" ==> r == Atoi(s)
  {
    if s == "" then Some(0) else Atoi(s)
  }

  /** A quantity field: empty or unparseable silently becomes 0. */
  function Quantity(field: string): (q: int)
    ensures Atoi(field).Some? ==> q == Atoi(field).value
    ensures Atoi(field).None? ==> q == 0
  {
    if field != "" then ParseIntSafe(field).GetOr(0) else 0
  }

  /** Name, unit and category are required, on create and on update alike. */
  function MaterialFormError(form: MaterialForm): (r: Option<string>)
    ensures r.None? <==> form.name != "" && form.unit != "" && form.category != ""
    ensures r.Some? ==> r.value == MissingFields
  {
    if form.name == "" || form.unit == "" || form.category == "" then Some(MissingFields) else None
  }

  /** `WHERE id = ? AND center_id = ?`: the textual id and the resolved center. */
  predicate InScope(m: Material, idParam: string, centerId: int) {
    IdParamMatches(idParam, m.id) && m.centerId == centerId
  }

  /** The update statement: the form's fields on every row in scope, the photo and creation time kept. */
  function ApplyForm(rows: seq<Material>, idParam: string, centerId: int, form: MaterialForm, now: int): (r: seq<Material>)
    ensures |r| == |rows|
    ensures forall i :: 0 <= i < |rows| && !InScope(rows[i], idParam, centerId) ==> r[i] == rows[i]
    ensures forall i :: 0 <= i < |rows| && InScope(rows[i], idParam, centerId) ==>
      r[i] == rows[i].(name := form.name, unit := form.unit, category := form.category,
                       availableQuantity := Quantity(form.availableQuantity),
                       minimumQuantity := Quantity(form.minimumQuantity), notes := form.notes, updatedAt := now)
  {
    UpdateWhere(rows, (m: Material) => InScope(m, idParam, centerId),
                (m: Material) => m.(name := form.name, unit := form.unit, category := form.category,
                                    availableQuantity := Quantity(form.availableQuantity),
                                    minimumQuantity := Quantity(form.minimumQuantity), notes := form.notes,
                                    updatedAt := now))
  }

  /** The delete statement: every row in scope goes, every other row stays. */
  function RemoveInScope(rows: seq<Material>, idParam: string, centerId: int): (r: seq<Material>)
    ensures forall i :: 0 <= i < |r| ==> r[i] in rows && !InScope(r[i], idParam, centerId)
    ensures forall i :: 0 <= i < |rows| && !InScope(rows[i], idParam, centerId) ==> rows[i] in r
    ensures multiset(r) + multiset(Where(rows, (m: Material) => InScope(m, idParam, centerId))) == multiset(rows)
  {
    DeleteWhere(rows, (m: Material) => InScope(m, idParam, centerId))
  }

  /** The rows of one center: `WHERE center_id = c`. */
  function OfCenter(c: int): Material -> bool {
    (m: Material) => m.centerId == c
  }

  /** `ORDER BY name`: text compared byte by byte, as SQLite's default collation does. */
  function ByName(): (Material, Material) -> bool {
    (a: Material, b: Material) => LexLe(a.name, b.name)
  }

  lemma ByNameIsTotal()
    ensures TotalPreorder(ByName())
  {
    forall a: Material, b: Material ensures ByName()(a, b) || ByName()(b, a) {
      LexTotal(a.name, b.name);
    }
    forall a: Material, b: Material, c: Material | ByName()(a, b) && ByName()(b, c) ensures ByName()(a, c) {
      LexTransitive(a.name, b.name, c.name);
    }
  }

  /**
   * `getMaterials`: the rows of the center whose name is the cookie (the subquery takes the first
   * center with that name), ordered by name; no such center lists nothing.
   */
  function MaterialsOfCenter(rows: seq<Material>, centers: seq<Center>, centro: string): (r: seq<Material>)
    ensures GetCenterID(centers, centro).None? ==> r == []
    ensures GetCenterID(centers, centro).Some? ==>
      multiset(r) == multiset(Where(rows, OfCenter(GetCenterID(centers, centro).value)))
    ensures GetCenterID(centers, centro).Some? ==>
      (forall i :: 0 <= i < |r| ==> r[i] in rows && r[i].centerId == GetCenterID(centers, centro).value) &&
      (forall i :: 0 <= i < |rows| && rows[i].centerId == GetCenterID(centers, centro).value ==> rows[i] in r)
    ensures forall i, j :: 0 <= i < j < |r| ==> LexLe(r[i].name, r[j].name)
  {
    match GetCenterID(centers, centro)
    case None => []
    case Some(c) =>
      var selected := Where(rows, OfCenter(c));
      var sorted := InsertionSort(selected, ByName());
      ByNameIsTotal();
      InsertionSortSorted(selected, ByName());
      SortKeepsMembers(selected, ByName());
      sorted
  }

  /** `getMaterial`: the row with that id in the named center, if any. */
  function GetMaterial(rows: seq<Material>, centers: seq<Center>, idParam: string, centro: string): (r: Option<Material>)
    ensures GetCenterID(centers, centro).None? ==> r.None?
    ensures GetCenterID(centers, centro).Some? ==>
      (r.None? <==> NoneInScope(rows, idParam, GetCenterID(centers, centro).value))
    ensures r.Some? ==> r.value in rows && InScope(r.value, idParam, GetCenterID(centers, centro).value)
  {
    match GetCenterID(centers, centro)
    case None => None
    case Some(c) =>
      match FirstWhere(rows, (m: Material) => InScope(m, idParam, c))
      case None => None
      case Some(i) => Some(rows[i])
  }

  /** The material an edit form shows is one the listing of the same center shows. */
  lemma ShownMaterialIsListed(rows: seq<Material>, centers: seq<Center>, idParam: string, centro: string)
    requires GetMaterial(rows, centers, idParam, centro).Some?
    ensures GetMaterial(rows, centers, idParam, centro).value in MaterialsOfCenter(rows, centers, centro)
  {
    var m := GetMaterial(rows, centers, idParam, centro).value;
    var i :| 0 <= i < |rows| && rows[i] == m;
  }

  /** No row is in scope: what "zero rows affected" means. */
  predicate NoneInScope(rows: seq<Material>, idParam: string, centerId: int) {
    forall i :: 0 <= i < |rows| ==> !InScope(rows[i], idParam, centerId)
  }

  /**
   * A center cannot reach another center's materials: whatever id is posted, an update or a
   * delete from center `c` leaves every row of any other center exactly as it was.
   */
  lemma OtherCentersUntouched(rows: seq<Material>, idParam: string, c: int, form: MaterialForm, now: int, k: nat)
    requires k < |rows| && rows[k].centerId != c
    ensures ApplyForm(rows, idParam, c, form, now)[k] == rows[k]
    ensures rows[k] in RemoveInScope(rows, idParam, c)
  {
  }

  /** With nothing in scope, both statements leave the table as it was. */
  lemma NothingInScopeChangesNothing(rows: seq<Material>, idParam: string, c: int, form: MaterialForm, now: int)
    requires NoneInScope(rows, idParam, c)
    ensures ApplyForm(rows, idParam, c, form, now) == rows
    ensures RemoveInScope(rows, idParam, c) == rows
  {
    DeleteNothing(rows, (m: Material) => InScope(m, idParam, c));
  }

  /** The `materials` table. */
  class MaterialStore {
    var rows: seq<Material>

    constructor ()
      ensures rows == []
    {
      rows := [];
    }

    /**
     * `MaterialesCrear` (POST): sign-in, a selected center, the required fields and a known
     * center, in that order, before the new row is added with its quantities coerced.
     */
    method Create(user: Option<User>, cookies: map<string, string>, form: MaterialForm,
                  centers: seq<Center>, now: int) returns (resp: Response)
      modifies this
      ensures user.None? ==> resp == Redirect("/login") && rows == old(rows)
      ensures user.Some? && SelectedCenter(cookies).None? ==> resp == Redirect(ChooseCenterPath) && rows == old(rows)
      ensures user.Some? && SelectedCenter(cookies).Some? && MaterialFormError(form).Some? ==>
        resp == Form(MaterialTemplate, MissingFields) && rows == old(rows)
      ensures user.Some? && SelectedCenter(cookies).Some? && MaterialFormError(form).None? &&
              GetCenterID(centers, SelectedCenter(cookies).value).None? ==>
        resp == Redirect(CenterNotFound) && rows == old(rows)
      ensures user.Some? && SelectedCenter(cookies).Some? && MaterialFormError(form).None? &&
              GetCenterID(centers, SelectedCenter(cookies).value).Some? ==>
        resp == Redirect(MaterialsPath + "?success=Material creado correctamente") &&
        rows == old(rows) + [Material(NextKey(old(rows), (m: Material) => m.id),
                                      GetCenterID(centers, SelectedCenter(cookies).value).value,
                                      form.name, None, form.unit, Quantity(form.availableQuantity),
                                      Quantity(form.minimumQuantity), form.notes, form.category, now, now)]
    {
      if user.None? {
        return Redirect("/login");
      }
      var centro := SelectedCenter(cookies);
      if centro.None? {
        return Redirect(ChooseCenterPath);
      }
      var invalid := MaterialFormError(form);
      if invalid.Some? {
        return Form(MaterialTemplate, invalid.value);
      }
      var centerId := GetCenterID(centers, centro.value);
      if centerId.None? {
        return Redirect(CenterNotFound);
      }
      var m := Material(NextKey(rows, (m: Material) => m.id), centerId.value, form.name, None, form.unit,
                        Quantity(form.availableQuantity), Quantity(form.minimumQuantity), form.notes,
                        form.category, now, now);
      rows := rows + [m];
      resp := Redirect(MaterialsPath + "?success=Material creado correctamente");
    }

    /**
     * `MaterialesEditar` (POST): after the same checks, only a row with that id in the selected
     * center is updated; none means "not found or not allowed".
     */
    method Update(user: Option<User>, cookies: map<string, string>, idParam: string, form: MaterialForm,
                  centers: seq<Center>, now: int) returns (resp: Response)
      modifies this
      ensures user.None? ==> resp == Redirect("/login") && rows == old(rows)
      ensures user.Some? && SelectedCenter(cookies).None? ==> resp == Redirect(ChooseCenterPath) && rows == old(rows)
      ensures user.Some? && SelectedCenter(cookies).Some? && idParam == "" ==> resp == Redirect(MissingId) && rows == old(rows)
      ensures user.Some? && SelectedCenter(cookies).Some? && idParam != "" && MaterialFormError(form).Some? ==>
        resp == Form(MaterialTemplate, MissingFields) && rows == old(rows)
      ensures user.Some? && SelectedCenter(cookies).Some? && idParam != "" && MaterialFormError(form).None? &&
              GetCenterID(centers, SelectedCenter(cookies).value).None? ==>
        resp == Redirect(CenterNotFound) && rows == old(rows)
      ensures user.Some? && SelectedCenter(cookies).Some? && idParam != "" && MaterialFormError(form).None? &&
              GetCenterID(centers, SelectedCenter(cookies).value).Some? ==>
        var c := GetCenterID(centers, SelectedCenter(cookies).value).value;
        rows == ApplyForm(old(rows), idParam, c, form, now) &&
        resp == if NoneInScope(old(rows), idParam, c) then Redirect(NotFoundOrForbidden)
                else Redirect(MaterialsPath + "?success=Material actualizado correctamente")
    {
      if user.None? {
        return Redirect("/login");
      }
      var centro := SelectedCenter(cookies);
      if centro.None? {
        return Redirect(ChooseCenterPath);
      }
      if idParam == "" {
        return Redirect(MissingId);
      }
      var invalid := MaterialFormError(form);
      if invalid.Some? {
        return Form(MaterialTemplate, invalid.value);
      }
      var centerId := GetCenterID(centers, centro.value);
      if centerId.None? {
        return Redirect(CenterNotFound);
      }
      var affected := FirstWhere(rows, (m: Material) => InScope(m, idParam, centerId.value));
      rows := ApplyForm(rows, idParam, centerId.value, form, now);
      if affected.None? {
        return Redirect(NotFoundOrForbidden);
      }
      resp := Redirect(MaterialsPath + "?success=Material actualizado correctamente");
    }

    /** `MaterialesEliminar`: the row with that id goes only if it belongs to the selected center. */
    method Delete(user: Option<User>, cookies: map<string, string>, idParam: string, centers: seq<Center>)
        returns (resp: Response)
      modifies this
      ensures user.None? ==> resp == Redirect("/login") && rows == old(rows)
      ensures user.Some? && SelectedCenter(cookies).None? ==> resp == Redirect(ChooseCenterPath) && rows == old(rows)
      ensures user.Some? && SelectedCenter(cookies).Some? && idParam == "" ==> resp == Redirect(MissingId) && rows == old(rows)
      ensures user.Some? && SelectedCenter(cookies).Some? && idParam != "" &&
              GetCenterID(centers, SelectedCenter(cookies).value).None? ==>
        resp == Redirect(CenterNotFound) && rows == old(rows)
      ensures user.Some? && SelectedCenter(cookies).Some? && idParam != "" &&
              GetCenterID(centers, SelectedCenter(cookies).value).Some? ==>
        var c := GetCenterID(centers, SelectedCenter(cookies).value).value;
        rows == RemoveInScope(old(rows), idParam, c) &&
        resp == if NoneInScope(old(rows), idParam, c) then Redirect(NotFoundOrForbidden)
                else Redirect(MaterialsPath + "?success=Material eliminado correctamente")
    {
      if user.None? {
        return Redirect("/login");
      }
      var centro := SelectedCenter(cookies);
      if centro.None? {
        return Redirect(ChooseCenterPath);
      }
      if idParam == "" {
        return Redirect(MissingId);
      }
      var centerId := GetCenterID(centers, centro.value);
      if centerId.None? {
        return Redirect(CenterNotFound);
      }
      var affected := FirstWhere(rows, (m: Material) => InScope(m, idParam, centerId.value));
      rows := RemoveInScope(rows, idParam, centerId.value);
      if affected.None? {
        return Redirect(NotFoundOrForbidden);
      }
      resp := Redirect(MaterialsPath + "?success=Material eliminado correctamente");
    }
  }
}
