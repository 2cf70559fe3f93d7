/**
 * The administration panel of `internal/handlers/admin.go` outside user management: the gate
 * every handler opens with, the query and form defaults, the materials report statistics and
 * the `centers` table.
 */
module Admin {
  import opened Wrappers
  import opened Text
  import opened Tables
  import opened Accounts
  import opened Common
  import opened Materials

  const DefaultTimezone: string := "Europe/Madrid"
  const CentersPath: string := "/admin/centros"
  const CenterFormTemplate: string := "admin_centro_form.html"
  const CenterNameRequired: string := "El nombre del centro es obligatorio"

  /** What the gate answers when it stops a request: /login without a user, 403 otherwise. */
  function GateResponse(caller: Option<User>): Response {
    if caller.None? then Redirect("/login") else Status(403, AccessDenied)
  }

  // ---------------------------------------------------------------------------------------
  // Query and form defaults

  /**
   * The `default_center_id` field: "", "0" or a text `strconv.Atoi` rejects is NULL; anything
   * else is the number it reads as.
   */
  function DefaultCenterParam(s: string): (r: Option<int>)
    ensures r.None? <==> s == "" || s == "0" || Atoi(s).None?
    ensures r.Some? ==> r == Atoi(s)
  {
    if s != "" && s != "0" then Atoi(s) else None
  }

  /** The select posts a center's id in decimal, or "0" for none: both come back as chosen. */
  lemma DefaultCenterParamRoundTrip(id: int)
    requires 0 < id <= MaxInt64
    ensures DefaultCenterParam(IntToString(id)) == Some(id)
    ensures DefaultCenterParam(IntToString(0)) == None
  {
    AtoiIntToString(id);
    assert IntToString(0) == "0";
  }

  /** A center's time zone: an empty field means "Europe/Madrid". */
  function CenterTimezone(timezone: string): (r: string)
    ensures r != ""
    ensures timezone != "" ==> r == timezone
    ensures timezone == "" ==> r == DefaultTimezone
  {
    if timezone == "" then DefaultTimezone else timezone
  }

  // ---------------------------------------------------------------------------------------
  // Materials report

  /** A material joined with the name of its center. */
  datatype MaterialWithCenter = MaterialWithCenter(material: Material, centerName: string)

  datatype MaterialStats = MaterialStats(
    totalMaterials: int,
    healthyMaterials: int,
    lowStockMaterials: int,
    totalCenters: int)

  /** A material is healthy when what is available reaches the minimum. */
  predicate Healthy(m: MaterialWithCenter) {
    m.material.availableQuantity >= m.material.minimumQuantity
  }

  function HealthyCount(ms: seq<MaterialWithCenter>): nat {
    if |ms| == 0 then 0 else HealthyCount(ms[..|ms| - 1]) + (if Healthy(ms[|ms| - 1]) then 1 else 0)
  }

  /** The distinct centers the materials belong to. */
  function CenterIds(ms: seq<MaterialWithCenter>): set<int> {
    set i | 0 <= i < |ms| :: ms[i].material.centerId
  }

  lemma CenterIdsSnoc(ms: seq<MaterialWithCenter>, m: MaterialWithCenter)
    ensures CenterIds(ms + [m]) == CenterIds(ms) + {m.material.centerId}
  {
    var both := ms + [m];
    forall c | c in CenterIds(both) ensures c in CenterIds(ms) + {m.material.centerId} {
      var i :| 0 <= i < |both| && both[i].material.centerId == c;
      if i < |ms| {
        assert ms[i] == both[i];
      }
    }
    forall c | c in CenterIds(ms) ensures c in CenterIds(both) {
      var i :| 0 <= i < |ms| && ms[i].material.centerId == c;
      assert both[i] == ms[i];
    }
    assert both[|ms|] == m;
  }

  /**
   * `calculateMaterialStats`: the total is the number of materials, the healthy ones are counted
   * one way and the rest the other, and the centers are counted once each.
   */
  method CalculateMaterialStats(materials: seq<MaterialWithCenter>) returns (stats: MaterialStats)
    ensures stats.totalMaterials == |materials|
    ensures stats.healthyMaterials == HealthyCount(materials)
    ensures stats.healthyMaterials + stats.lowStockMaterials == stats.totalMaterials
    ensures stats.totalCenters == |CenterIds(materials)|
  {
    var centersMap: map<int, bool> := map[];
    var healthy, low := 0, 0;
    for i := 0 to |materials|
      invariant centersMap.Keys == CenterIds(materials[..i])
      invariant healthy == HealthyCount(materials[..i])
      invariant healthy + low == i
    {
      var m := materials[i];
      assert materials[..i + 1] == materials[..i] + [m];
      CenterIdsSnoc(materials[..i], m);
      centersMap := centersMap[m.material.centerId := true];
      if m.material.availableQuantity >= m.material.minimumQuantity {
        healthy := healthy + 1;
      } else {
        low := low + 1;
      }
    }
    assert materials[..|materials|] == materials;
    stats := MaterialStats(|materials|, healthy, low, |centersMap.Keys|);
  }

  /** All materials are healthy exactly when the healthy count is the total, and none when it is 0. */
  lemma {:induction false} HealthyCountExtremes(ms: seq<MaterialWithCenter>)
    ensures HealthyCount(ms) <= |ms|
    ensures HealthyCount(ms) == |ms| <==> forall i :: 0 <= i < |ms| ==> Healthy(ms[i])
    ensures HealthyCount(ms) == 0 <==> forall i :: 0 <= i < |ms| ==> !Healthy(ms[i])
  {
    if |ms| > 0 {
      var init := ms[..|ms| - 1];
      HealthyCountExtremes(init);
      assert forall i :: 0 <= i < |init| ==> init[i] == ms[i];
    }
  }

  /** There are never more centers than materials, and any material means at least one center. */
  lemma {:induction false} CenterCountBounds(ms: seq<MaterialWithCenter>)
    ensures |CenterIds(ms)| <= |ms|
    ensures |ms| > 0 ==> |CenterIds(ms)| >= 1
  {
    if |ms| > 0 {
      var init := ms[..|ms| - 1];
      CenterCountBounds(init);
      assert ms == init + [ms[|ms| - 1]];
      CenterIdsSnoc(init, ms[|ms| - 1]);
    }
  }

  // ---------------------------------------------------------------------------------------
  // Centers

  /** `updateCenter`: every center with that id is renamed and gets the time zone (defaulted). */
  function RenameCenter(rows: seq<Center>, idParam: string, name: string, timezone: string): (r: seq<Center>)
    ensures |r| == |rows|
    ensures forall i :: 0 <= i < |rows| && IdParamMatches(idParam, rows[i].id) ==>
      r[i] == Center(rows[i].id, name, CenterTimezone(timezone))
    ensures forall i :: 0 <= i < |rows| && !IdParamMatches(idParam, rows[i].id) ==> r[i] == rows[i]
  {
    UpdateWhere(rows, (c: Center) => IdParamMatches(idParam, c.id),
                (c: Center) => c.(name := name, timezone := CenterTimezone(timezone)))
  }

  /**
   * The update does not count affected rows: an unknown id leaves the table as it was and is still
   * reported as a success by `CenterTable.Update`.
   */
  lemma UnknownCenterUpdateChangesNothing(rows: seq<Center>, idParam: string, name: string, timezone: string)
    requires forall i :: 0 <= i < |rows| ==> !IdParamMatches(idParam, rows[i].id)
    ensures RenameCenter(rows, idParam, name, timezone) == rows
  {
  }

  /** A center created under a name no other center has is what that name resolves to. */
  lemma NewCenterResolvesByName(rows: seq<Center>, name: string, timezone: string)
    requires forall i :: 0 <= i < |rows| ==> rows[i].name != name
    ensures GetCenterID(rows + [Center(NextKey(rows, (c: Center) => c.id), name, CenterTimezone(timezone))], name)
            == Some(NextKey(rows, (c: Center) => c.id))
  {
    var added := rows + [Center(NextKey(rows, (c: Center) => c.id), name, CenterTimezone(timezone))];
    assert forall i :: 0 <= i < |rows| ==> added[i] == rows[i];
    assert added[|rows|].name == name;
    var r := GetCenterID(added, name);
    assert r.Some?;
    var i :| 0 <= i < |added| && added[i].name == name && added[i].id == r.value;
    assert i == |rows|;
  }

  /** The `centers` table. */
  class CenterTable {
    var rows: seq<Center>

    constructor ()
      ensures rows == []
    {
      rows := [];
    }

    /** `AdminCentroCrear` (POST): a name is required; the new center gets the next id. */
    method Create(caller: Option<User>, name: string, timezone: string) returns (resp: Response)
      modifies this
      ensures !HasAccess(caller, AdminPermission) ==> resp == GateResponse(caller) && rows == old(rows)
      ensures HasAccess(caller, AdminPermission) && name == "" ==>
        resp == Form(CenterFormTemplate, CenterNameRequired) && rows == old(rows)
      ensures HasAccess(caller, AdminPermission) && name != "" ==>
        rows == old(rows) + [Center(NextKey(old(rows), (c: Center) => c.id), name, CenterTimezone(timezone))] &&
        resp == Redirect(CentersPath + "?success=Centro creado correctamente")
    {
      var stop := AdminGate(caller);
      if stop.Some? {
        return stop.value;
      }
      if name == "" {
        return Form(CenterFormTemplate, CenterNameRequired);
      }
      rows := rows + [Center(NextKey(rows, (c: Center) => c.id), name, CenterTimezone(timezone))];
      resp := Redirect(CentersPath + "?success=Centro creado correctamente");
    }

    /**
     * `AdminCentroEditar` (POST): an id and a name are required; the update reports success
     * whether or not a center had that id.
     */
    method Update(caller: Option<User>, idParam: string, name: string, timezone: string) returns (resp: Response)
      modifies this
      ensures !HasAccess(caller, AdminPermission) ==> resp == GateResponse(caller) && rows == old(rows)
      ensures HasAccess(caller, AdminPermission) && idParam == "" ==>
        resp == Redirect(CentersPath + "?error=ID de centro requerido") && rows == old(rows)
      ensures HasAccess(caller, AdminPermission) && idParam != "" && name == "" ==>
        resp == Form(CenterFormTemplate, CenterNameRequired) && rows == old(rows)
      ensures HasAccess(caller, AdminPermission) && idParam != "" && name != "" ==>
        rows == RenameCenter(old(rows), idParam, name, timezone) &&
        resp == Redirect(CentersPath + "?success=Centro actualizado correctamente")
    {
      var stop := AdminGate(caller);
      if stop.Some? {
        return stop.value;
      }
      if idParam == "" {
        return Redirect(CentersPath + "?error=ID de centro requerido");
      }
      if name == "" {
        return Form(CenterFormTemplate, CenterNameRequired);
      }
      rows := RenameCenter(rows, idParam, name, timezone);
      resp := Redirect(CentersPath + "?success=Centro actualizado correctamente");
    }
  }
}
