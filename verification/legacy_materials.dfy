/**
 * The legacy PHP material form of `www/materiales/crear_material.php`: a posted material is
 * saved as a JSON file in the center's `Materiales` folder, named after the material. The
 * folder is a map from file name to record; the upload, `uniqid`, the clock and the outcome of
 * the write are parameters.
 */
module LegacyMaterials {
  import opened Wrappers
  import opened Text
  import LegacyAuth

  const CreatePermission: string := "materiales.create"
  const DefaultUnit: string := "unidad"
  const DefaultPhoto: string := "/static/pictos/material_escolar.png"
  const NameRequired: string := "El nombre es obligatorio."
  const SaveFailed: string := "No se pudo guardar el material."

  /** A quantity field: the integer 0 when not posted, else the posted text. */
  datatype Quantity = Zero | Posted(text: string)

  /** The posted fields; `None` is a field absent from the request. */
  datatype MaterialForm = MaterialForm(
    nombre: Option<string>,
    unidad: Option<string>,
    cantidadDisponible: Option<string>,
    cantidadMinima: Option<string>,
    notas: Option<string>)

  /** The JSON record written for a material. */
  datatype LegacyMaterial = LegacyMaterial(
    nombre: string,
    foto: string,
    unidad: string,
    cantidadDisponible: Quantity,
    cantidadMinima: Quantity,
    notas: string,
    createdAt: string)

  /** What the page does: redirect, or show the form again with an error or none. */
  datatype Page = Redirected(location: string) | Shown(error: Option<string>)

  // ---------------------------------------------------------------------------------------
  // The file name

  /** The characters `[a-zA-Z0-9_-]` the name pattern keeps. */
  predicate IsNameChar(c: char) {
    'a' <= c <= 'z' || 'A' <= c <= 'Z' || '0' <= c <= '9' || c == '_' || c == '-'
  }

  /** `preg_replace('/[^a-zA-Z0-9_-]/', '_', name)`: every other character becomes "_". */
  function ReplaceOthers(name: string): (r: string)
    ensures |r| == |name|
    ensures forall i :: 0 <= i < |name| ==> r[i] == if IsNameChar(name[i]) then name[i] else '_'
  {
    if |name| == 0 then [] else [if IsNameChar(name[0]) then name[0] else '_'] + ReplaceOthers(name[1..])
  }

  /** The file name without ".json": the replaced name in lower case. */
  function Stem(name: string): string {
    ToLower(ReplaceOthers(name))
  }

  /**
   * The file a material is saved under: one character per character of the name, each replaced
   * and lower-cased on its own, then ".json".
   */
  function FileName(name: string): (r: string)
    ensures |r| == |name| + 5 && r[|name|..] == ".json"
    ensures forall i :: 0 <= i < |name| ==> r[i] == StemChar(name[i])
  {
    StemByCharacter(name);
    StemAlphabet(name);
    Stem(name) + ".json"
  }

  /** The stem is as long as the name and drawn from `[a-z0-9_-]`. */
  lemma StemAlphabet(name: string)
    ensures |Stem(name)| == |name|
    ensures forall i :: 0 <= i < |name| ==>
      var c := Stem(name)[i]; 'a' <= c <= 'z' || '0' <= c <= '9' || c == '_' || c == '-'
  {
  }

  /** A stem is its own stem: sanitising a second time changes nothing. */
  lemma StemIdempotent(name: string)
    ensures Stem(Stem(name)) == Stem(name)
  {
    StemAlphabet(name);
    var s := Stem(name);
    assert forall i :: 0 <= i < |s| ==> IsNameChar(s[i]) && !('A' <= s[i] <= 'Z');
    assert ReplaceOthers(s) == s;
  }

  /** The stem character a name character turns into. */
  function StemChar(c: char): char {
    var k := if IsNameChar(c) then c else '_';
    if 'A' <= k <= 'Z' then (k as int + 32) as char else k
  }

  lemma StemByCharacter(name: string)
    ensures forall i :: 0 <= i < |name| ==> Stem(name)[i] == StemChar(name[i])
  {
  }

  /** Names that agree character by character after replacement and lower-casing share one file. */
  lemma SameStem(a: string, b: string)
    requires |a| == |b|
    requires forall i :: 0 <= i < |a| ==> StemChar(a[i]) == StemChar(b[i])
    ensures FileName(a) == FileName(b)
  {
    StemByCharacter(a);
    StemByCharacter(b);
    assert Stem(a) == Stem(b);
  }

  /** Names that differ only in case, or in the characters replaced by "_", share one file. */
  lemma NamesCollide()
    ensures FileName("A b") == FileName("a_b")
    ensures FileName("a/b") == FileName("a b")
  {
    var x, y, z := "A b", "a_b", "a/b";
    assert StemChar(x[0]) == StemChar(y[0]) == 'a';
    assert StemChar(x[1]) == StemChar(y[1]) == StemChar(z[1]) == '_';
    assert StemChar(x[2]) == StemChar(y[2]) == 'b';
    SameStem(x, y);
    SameStem(z, x);
  }

  // ---------------------------------------------------------------------------------------
  // The record

  /** PHP's `basename` for a name without trailing "/": the text after the last "/". */
  function Basename(path: string): (r: string)
    ensures '/' !in r
    ensures |r| <= |path| && path[|path| - |r|..] == r
    ensures |r| < |path| ==> path[|path| - |r| - 1] == '/'
  {
    if |path| == 0 then ""
    else if path[|path| - 1] == '/' then ""
    else
      var init := path[..|path| - 1];
      var r := Basename(init);
      assert init[|init| - |r|..] + [path[|path| - 1]] == path[|path| - |r| - 1..];
      r + [path[|path| - 1]]
  }

  /**
   * The photo path: the default picture unless an upload arrived and was moved into the
   * `Fotos` folder, under `uniqid('img_')` + "_" + its base name.
   */
  function PhotoPath(centro: string, upload: Option<string>, moved: bool, uniqueId: string): (r: string)
    ensures upload.None? || !moved ==> r == DefaultPhoto
    ensures upload.Some? && moved ==>
      r == "download_image.php?centro=" + centro + "&image=" + uniqueId + "_" + Basename(upload.value)
  {
    if upload.Some? && moved then "download_image.php?centro=" + centro + "&image=" + uniqueId + "_" + Basename(upload.value)
    else DefaultPhoto
  }

  /** The record saved for a form: absent fields take their defaults. */
  function Record(form: MaterialForm, photo: string, createdAt: string): (m: LegacyMaterial)
    ensures m.nombre == form.nombre.GetOr("") && m.foto == photo && m.createdAt == createdAt
    ensures form.unidad.None? ==> m.unidad == DefaultUnit
    ensures form.unidad.Some? ==> m.unidad == form.unidad.value
    ensures form.cantidadDisponible.None? ==> m.cantidadDisponible == Zero
    ensures form.cantidadMinima.None? ==> m.cantidadMinima == Zero
    ensures form.cantidadDisponible.Some? ==> m.cantidadDisponible == Posted(form.cantidadDisponible.value)
    ensures form.cantidadMinima.Some? ==> m.cantidadMinima == Posted(form.cantidadMinima.value)
    ensures form.notas.None? ==> m.notas == ""
    ensures form.notas.Some? ==> m.notas == form.notas.value
  {
    LegacyMaterial(
      form.nombre.GetOr(""),
      photo,
      form.unidad.GetOr(DefaultUnit),
      if form.cantidadDisponible.Some? then Posted(form.cantidadDisponible.value) else Zero,
      if form.cantidadMinima.Some? then Posted(form.cantidadMinima.value) else Zero,
      form.notas.GetOr(""),
      createdAt)
  }

  // ---------------------------------------------------------------------------------------
  // The name check

  /** PHP's `empty` on a string: "" and "0" are empty. */
  predicate PhpEmpty(s: string) {
    s == "" || s == "0"
  }

  /** The check as written, `!empty($nombre)`. */
  predicate NameGivenAsWritten(nombre: string) {
    !PhpEmpty(nombre)
  }

  /** The check the message states: a name is required, so any non-empty text is a name. */
  predicate NameGiven(nombre: string) {
    nombre != ""
  }

  /**
   * The check as intended accepts exactly the names that give a file a stem of its own, "0"
   * among them.
   */
  lemma NameGivenIffStem(nombre: string)
    ensures NameGiven(nombre) <==> Stem(nombre) != ""
    ensures NameGiven(nombre) ==> FileName(nombre) != ".json"
  {
    StemAlphabet(nombre);
  }

  /**
   * The check as written turns away the material named "0" with "the name is required", though
   * "0" has a stem and a file of its own.
   */
  lemma ZeroNameRejected()
    ensures !NameGivenAsWritten("0") && NameGiven("0")
    ensures FileName("0") == "0.json"
    ensures forall n :: NameGiven(n) && n != "0" ==> NameGivenAsWritten(n)
  {
  }

  /** The folder of material files of one center. */
  class MaterialFolder {
    var files: map<string, LegacyMaterial>

    constructor (files: map<string, LegacyMaterial>)
      ensures this.files == files
    {
      this.files := files;
    }

    /**
     * The POST of the page: without `materiales.create` the visitor is sent away; a form whose
     * name PHP's `empty` calls empty ("" or "0", see `ZeroNameRejected`) is shown again with "El nombre es obligatorio." and nothing is written;
     * otherwise the record is written under the name's file, replacing any file already there,
     * and the browser goes back to the list, unless the write fails.
     */
    method Create(jar: map<string, string>, users: map<string, LegacyAuth.LegacyUser>, crypto: LegacyAuth.Crypto,
                  centro: string, form: MaterialForm, upload: Option<string>, moved: bool, uniqueId: string,
                  now: string, writeSucceeds: bool) returns (page: Page)
      modifies this
      ensures LegacyAuth.RequirePermission(jar, users, crypto, CreatePermission).Some? ==>
        page == Redirected(LegacyAuth.NoPermissionLocation) && files == old(files)
      ensures LegacyAuth.RequirePermission(jar, users, crypto, CreatePermission).None? ==>
        var nombre := form.nombre.GetOr("");
        (!NameGivenAsWritten(nombre) ==> page == Shown(Some(NameRequired)) && files == old(files)) &&
        (NameGivenAsWritten(nombre) && !writeSucceeds ==> page == Shown(Some(SaveFailed)) && files == old(files)) &&
        (NameGivenAsWritten(nombre) && writeSucceeds ==>
          page == Redirected("index.php") &&
          files == old(files)[FileName(nombre) := Record(form, PhotoPath(centro, upload, moved, uniqueId), now)])
    {
      var stop := LegacyAuth.RequirePermission(jar, users, crypto, CreatePermission);
      if stop.Some? {
        return Redirected(stop.value);
      }
      var nombre := form.nombre.GetOr("");
      var photo := PhotoPath(centro, upload, moved, uniqueId);
      if !NameGivenAsWritten(nombre) {
        return Shown(Some(NameRequired));
      }
      if !writeSucceeds {
        return Shown(Some(SaveFailed));
      }
      files := files[FileName(nombre) := Record(form, photo, now)];
      page := Redirected("index.php");
    }
  }

  /**
   * Saving two materials whose names share a stem leaves one file: the second record, under
   * the shared name.
   */
  lemma SameStemOverwrites(files: map<string, LegacyMaterial>, first: LegacyMaterial, second: LegacyMaterial,
                           a: string, b: string)
    requires Stem(a) == Stem(b)
    ensures files[FileName(a) := first][FileName(b) := second] == files[FileName(b) := second]
    ensures FileName(a) in files[FileName(a) := first][FileName(b) := second]
  {
  }
}
