/** The request decisions of the cultivo, sensor, insumo and user
    controllers. The SQL models behind them are plain pass-through, so a
    table is a map from id to stored row and each handler returns its
    status code together with the one store command it issues. */
module EntityControllers {
  import opened Wrappers
  import opened Seqs
  import Text
  import Js
  import Status

  type Table = map<string, Js.Body>

  /** The store command a handler issues. */
  datatype Effect =
    | NoEffect
    | Insert(row: Js.Body)
    | Write(id: string, body: Js.Body)
    | SetStatus(id: string, estado: string)
    | Remove(id: string)
    | Associate(id: string, other: Js.JsValue)

  /** A status code, the store command, and the field names a 400 lists. */
  datatype Outcome = Outcome(code: nat, effect: Effect, missing: seq<string>)

  function Answer(code: nat, effect: Effect): Outcome {
    Outcome(code, effect, [])
  }

  /** `activo` or `inactivo` as a string. */
  predicate ValidEstado(v: Js.JsValue) {
    v.Str? && Status.IsStatus(v.s)
  }

  /** The status endpoints of cultivos, sensors and insumos: 400 for a
      missing estado or one other than `activo`/`inactivo`, checked before
      the lookup; 404 for an unknown id; else the status write and 200. */
  function HandleToggle(t: Table, id: string, estado: Js.JsValue): (o: Outcome)
    ensures o.code == 400 <==> !ValidEstado(estado)
    ensures o.code == 404 <==> ValidEstado(estado) && id !in t
    ensures o.code == 200 <==> ValidEstado(estado) && id in t
    ensures o.code == 200 ==> o.effect == SetStatus(id, estado.s)
    ensures o.code != 200 ==> o.effect == NoEffect
  {
    if !Js.Truthy(estado) || !ValidEstado(estado) then Answer(400, NoEffect)
    else if id !in t then Answer(404, NoEffect)
    else Answer(200, SetStatus(id, estado.s))
  }

  /** A refused estado is refused whatever the table holds. */
  lemma ToggleValidatesFirst(t1: Table, t2: Table, id: string, estado: Js.JsValue)
    requires HandleToggle(t1, id, estado).code == 400
    ensures HandleToggle(t2, id, estado) == HandleToggle(t1, id, estado)
  {
  }

  /** The `getById` endpoints: 404 when no row has the id. */
  function HandleGetById(t: Table, id: string): (r: (nat, Option<Js.Body>))
    ensures r.0 == 404 <==> id !in t
    ensures r.0 == 200 ==> r.1 == Some(t[id])
    ensures r.0 == 404 || r.0 == 200
  {
    if id !in t then (404, None) else (200, Some(t[id]))
  }

  // ---------------------------------------------------------------------
  // Cultivos

  const CultivoRequired: seq<string> := ["nombre", "tipo", "tamano", "ubicacion", "id_cultivo"]

  function IsFalsy(body: Js.Body): string -> bool {
    (f: string) => !Js.Truthy(Js.Get(body, f))
  }

  /** The required fields whose values are falsy, in declared order. */
  function MissingFields(body: Js.Body, fields: seq<string>): (m: seq<string>)
    ensures IsSubsequence(m, fields)
    ensures forall f :: f in m <==> f in fields && !Js.Truthy(Js.Get(body, f))
  {
    FilterSpec(fields, IsFalsy(body));
    Filter(fields, IsFalsy(body))
  }

  /** `x ? x.trim() : null`: `None` when a truthy value is not a string,
      whose `trim` call throws. */
  function TrimOrNull(v: Js.JsValue): (r: Option<Js.JsValue>)
    ensures r.None? <==> Js.Truthy(v) && !v.Str?
    ensures r.Some? && Js.Truthy(v) ==> r.value == Js.Str(Text.Trim(v.s))
    ensures r.Some? && !Js.Truthy(v) ==> r.value == Js.Null
  {
    if !Js.Truthy(v) then Some(Js.Null)
    else if v.Str? then Some(Js.TrimValue(v))
    else None
  }

  /** The stored path of an uploaded file. */
  function UploadPath(folder: string, filename: string): string {
    "/uploads/" + folder + "/" + filename
  }

  /** The columns `createCultivo` trims. */
  const CultivoTrimmed: set<string> := {"nombre", "tipo", "id_cultivo", "tamano", "ubicacion"}

  /** The cultivo row `createCultivo` stores, once the checks have passed:
      the five checked fields trimmed, `fecha_siembra` as given, the
      trimmed `descripcion`, `estado` defaulting to `activo` and the image
      path of the upload, else the given `fotografia` or `null`. */
  function CultivoRecord(body: Js.Body, descripcion: Js.JsValue, upload: Option<string>): (row: Js.Body)
    ensures row.Keys == CultivoTrimmed + {"fecha_siembra", "descripcion", "estado", "fotografia"}
    ensures forall k :: k in CultivoTrimmed ==> row[k] == Js.TrimValue(Js.Get(body, k))
    ensures row["fecha_siembra"] == Js.Get(body, "fecha_siembra") && row["descripcion"] == descripcion
    ensures row["estado"] == Js.Or(Js.Get(body, "estado"), Js.Str(Status.Activo)) && Js.Truthy(row["estado"])
    ensures upload.Some? ==> row["fotografia"] == Js.Str(UploadPath("cultivos", upload.value))
    ensures upload.None? ==> row["fotografia"] == Js.Or(Js.Get(body, "fotografia"), Js.Null)
  {
    map k | k in CultivoTrimmed + {"fecha_siembra", "descripcion", "estado", "fotografia"}
      :: CultivoColumn(body, descripcion, upload, k)
  }

  function CultivoColumn(body: Js.Body, descripcion: Js.JsValue, upload: Option<string>, k: string): Js.JsValue {
    if k in CultivoTrimmed then Js.TrimValue(Js.Get(body, k))
    else if k == "descripcion" then descripcion
    else if k == "estado" then Js.Or(Js.Get(body, "estado"), Js.Str(Status.Activo))
    else if k == "fotografia" then
      (if upload.Some? then Js.Str(UploadPath("cultivos", upload.value)) else Js.Or(Js.Get(body, "fotografia"), Js.Null))
    else Js.Get(body, k)
  }

  /** Every field of `fields` holds a string. */
  predicate AllStrings(body: Js.Body, fields: seq<string>) {
    forall i :: 0 <= i < |fields| ==> Js.Get(body, fields[i]).Str?
  }

  /** `createCultivo`: 400 listing the falsy required fields; 400 when any
      of them is not a string; 500 when a truthy `descripcion` is not a
      string; else 201 and the trimmed, defaulted row is inserted. */
  function HandleCreateCultivo(body: Js.Body, upload: Option<string>): (o: Outcome)
    ensures o.code == 400 && o.missing != [] <==> MissingFields(body, CultivoRequired) != []
    ensures o.missing == MissingFields(body, CultivoRequired) || o.missing == []
    ensures o.code == 201 <==>
      MissingFields(body, CultivoRequired) == [] && AllStrings(body, CultivoRequired)
      && TrimOrNull(Js.Get(body, "descripcion")).Some?
    ensures o.code == 400 <==> MissingFields(body, CultivoRequired) != [] || !AllStrings(body, CultivoRequired)
    ensures o.code != 400 && o.code != 201 ==> o.code == 500
    ensures o.code == 201 ==> o.effect == Insert(CultivoRecord(body, TrimOrNull(Js.Get(body, "descripcion")).value, upload))
    ensures o.code != 201 ==> o.effect == NoEffect
  {
    var missing := MissingFields(body, CultivoRequired);
    if missing != [] then Outcome(400, NoEffect, missing)
    else if !AllStrings(body, CultivoRequired) then Answer(400, NoEffect)
    else
      match TrimOrNull(Js.Get(body, "descripcion"))
      case None => Answer(500, NoEffect)
      case Some(d) => Answer(201, Insert(CultivoRecord(body, d, upload)))
  }

  /** The two 400 checks of `createCultivo` pass together exactly when
      every required field is a non-empty string. */
  lemma CultivoChecksMeaning(body: Js.Body, fields: seq<string>)
    ensures MissingFields(body, fields) == [] && AllStrings(body, fields)
        <==> forall i :: 0 <= i < |fields| ==> Js.Get(body, fields[i]).Str? && Js.Get(body, fields[i]) != Js.Str("")
  {
    var m := MissingFields(body, fields);
    if m == [] && AllStrings(body, fields) {
      forall i | 0 <= i < |fields| ensures Js.Get(body, fields[i]) != Js.Str("") {
        assert fields[i] !in m;
      }
    }
  }

  /** The `update` endpoints of cultivos and sensors: 404 for an unknown
      id; else the body is written with the image field set to the new
      upload, or to the stored image when there is none. */
  function HandleUpdateWithImage(t: Table, id: string, body: Js.Body, field: string, folder: string,
                                 upload: Option<string>): (o: Outcome)
    ensures o.code == 404 <==> id !in t
    ensures o.code != 404 ==> o.code == 200 && o.effect.Write? && o.effect.id == id
    ensures o.code == 200 ==> field in o.effect.body
    ensures o.code == 200 && upload.None? ==> o.effect.body[field] == Js.Get(t[id], field)
    ensures o.code == 200 && upload.Some? ==> o.effect.body[field] == Js.Str(UploadPath(folder, upload.value))
    ensures o.code == 200 ==> forall k :: k in body && k != field ==> k in o.effect.body && o.effect.body[k] == body[k]
  {
    if id !in t then Answer(404, NoEffect)
    else
      var image := if upload.Some? then Js.Str(UploadPath(folder, upload.value)) else Js.Get(t[id], field);
      Answer(200, Write(id, body[field := image]))
  }

  /** `associateSensor` and `associateInsumo`: 400 for a missing other id
      before any lookup, 404 for an unknown cultivo, else 200. */
  function HandleAssociate(t: Table, id: string, other: Js.JsValue): (o: Outcome)
    ensures o.code == 400 <==> !Js.Truthy(other)
    ensures o.code == 404 <==> Js.Truthy(other) && id !in t
    ensures o.code == 200 <==> Js.Truthy(other) && id in t
    ensures o.code == 200 ==> o.effect == Associate(id, other)
    ensures o.code != 200 ==> o.effect == NoEffect
  {
    if !Js.Truthy(other) then Answer(400, NoEffect)
    else if id !in t then Answer(404, NoEffect)
    else Answer(200, Associate(id, other))
  }

  // ---------------------------------------------------------------------
  // Sensors

  /** `createSensor`: the body, plus the upload path when a file came,
      is stored without checks; 201. */
  function HandleCreateSensor(body: Js.Body, upload: Option<string>): (o: Outcome)
    ensures o.code == 201 && o.effect.Insert?
    ensures upload.None? ==> o.effect.row == body
    ensures upload.Some? ==> o.effect.row == body["imagen" := Js.Str(UploadPath("sensors", upload.value))]
  {
    var row := if upload.Some? then body["imagen" := Js.Str(UploadPath("sensors", upload.value))] else body;
    Answer(201, Insert(row))
  }

  /** A readings answer: status, count and rows. */
  datatype Readings<T> = MissingDates | ReadingsOk(count: nat, data: seq<T>)

  /** `getSensorReadings`: both dates are needed, else 400; the count is
      the number of readings sent. */
  function HandleReadings<T>(startDate: Js.JsValue, endDate: Js.JsValue, readings: seq<T>): (r: Readings<T>)
    ensures r.MissingDates? <==> !Js.Truthy(startDate) || !Js.Truthy(endDate)
    ensures r.ReadingsOk? ==> r.count == |r.data| && r.data == readings
  {
    if !Js.Truthy(startDate) || !Js.Truthy(endDate) then MissingDates
    else ReadingsOk(|readings|, readings)
  }

  // ---------------------------------------------------------------------
  // Insumos

  const InsumoRequired: seq<string> :=
    ["id_insumo", "nombre", "tipo", "unidad_medida", "cantidad", "valor_unitario", "valor_total"]

  /** `undefined`, `null` or the empty string: `0` and `false` are present. */
  predicate Blank(v: Js.JsValue) {
    v.Undefined? || v.Null? || v == Js.Str("")
  }

  function IsBlank(body: Js.Body): string -> bool {
    (f: string) => Blank(Js.Get(body, f))
  }

  function BlankFields(body: Js.Body): (m: seq<string>)
    ensures IsSubsequence(m, InsumoRequired)
    ensures forall f :: f in m <==> f in InsumoRequired && Blank(Js.Get(body, f))
  {
    FilterSpec(InsumoRequired, IsBlank(body));
    Filter(InsumoRequired, IsBlank(body))
  }

  /** The four fields the handler trims. */
  predicate TrimmedAreStrings(body: Js.Body) {
    forall k :: k in InsumoTrimmed ==> Js.Get(body, k).Str?
  }

  /** The columns `createInsumo` trims and the ones it parses as numbers. */
  const InsumoTrimmed: set<string> := {"id_insumo", "nombre", "tipo", "unidad_medida"}
  const InsumoAmounts: set<string> := {"cantidad", "valor_unitario", "valor_total"}

  /** The insumo row `createInsumo` stores: strings trimmed, the three
      amounts parsed, `valor_total` taken from the request as it is. */
  function InsumoRecord(body: Js.Body, descripcion: Js.JsValue): (row: Js.Body)
    ensures row.Keys == InsumoTrimmed + InsumoAmounts + {"descripcion", "estado"}
    ensures forall k :: k in InsumoTrimmed ==> row[k] == Js.TrimValue(Js.Get(body, k))
    ensures forall k :: k in InsumoAmounts ==> row[k] == Js.ParseFloatValue(Js.Get(body, k))
    ensures row["estado"] == Js.Or(Js.Get(body, "estado"), Js.Str(Status.Activo)) && Js.Truthy(row["estado"])
    ensures row["descripcion"] == descripcion
  {
    map k | k in InsumoTrimmed + InsumoAmounts + {"descripcion", "estado"} :: InsumoColumn(body, descripcion, k)
  }

  function InsumoColumn(body: Js.Body, descripcion: Js.JsValue, k: string): Js.JsValue {
    if k in InsumoTrimmed then Js.TrimValue(Js.Get(body, k))
    else if k in InsumoAmounts then Js.ParseFloatValue(Js.Get(body, k))
    else if k == "descripcion" then descripcion
    else Js.Or(Js.Get(body, "estado"), Js.Str(Status.Activo))
  }

  /** `createInsumo`: 400 listing the blank required fields; 500 when a
      field it trims is not a string (the `trim` call throws); else 201
      and the row is inserted. */
  function HandleCreateInsumo(body: Js.Body): (o: Outcome)
    ensures o.code == 400 <==> BlankFields(body) != []
    ensures o.code == 400 ==> o.missing == BlankFields(body)
    ensures o.code == 201 <==> BlankFields(body) == [] && TrimmedAreStrings(body)
                               && TrimOrNull(Js.Get(body, "descripcion")).Some?
    ensures o.code != 400 && o.code != 201 ==> o.code == 500
    ensures o.code == 201 ==> o.effect == Insert(InsumoRecord(body, TrimOrNull(Js.Get(body, "descripcion")).value))
    ensures o.code != 201 ==> o.effect == NoEffect
  {
    InsumoOutcome(body, BlankFields(body), TrimmedAreStrings(body), TrimOrNull(Js.Get(body, "descripcion")))
  }

  /** The decision of `createInsumo` once its three checks are evaluated:
      the blank fields, whether the trimmed fields are strings, and the
      trimmed `descripcion` (`None` when trimming it throws). */
  function InsumoOutcome(body: Js.Body, missing: seq<string>, trimmable: bool, descripcion: Option<Js.JsValue>)
    : (o: Outcome)
    ensures o.code == 400 <==> missing != []
    ensures o.code == 400 ==> o.missing == missing
    ensures o.code == 201 <==> missing == [] && trimmable && descripcion.Some?
    ensures o.code != 400 && o.code != 201 ==> o.code == 500
    ensures o.code == 201 ==> o.effect == Insert(InsumoRecord(body, descripcion.value))
    ensures o.code != 201 ==> o.effect == NoEffect
  {
    if missing != [] then Outcome(400, NoEffect, missing)
    else if !trimmable then Answer(500, NoEffect)
    else
      match descripcion
      case None => Answer(500, NoEffect)
      case Some(d) => Answer(201, Insert(InsumoRecord(body, d)))
  }

  /** A created insumo's trimmed columns are strings that trimming again
      leaves as they are. */
  lemma InsumoStoredTrimmed(body: Js.Body)
    requires HandleCreateInsumo(body).code == 201
    ensures HandleCreateInsumo(body).effect.Insert?
    ensures forall k :: k in InsumoTrimmed ==>
      var v := HandleCreateInsumo(body).effect.row[k];
      v.Str? && Text.Trim(v.s) == v.s
  {
    var d := TrimOrNull(Js.Get(body, "descripcion")).value;
    var row := InsumoRecord(body, d);
    assert TrimmedAreStrings(body) && HandleCreateInsumo(body).effect == Insert(row);
    forall k | k in InsumoTrimmed ensures row[k].Str? && Text.Trim(row[k].s) == row[k].s {
      TrimmedStable(Js.Get(body, k));
    }
  }

  lemma TrimmedStable(v: Js.JsValue)
    requires v.Str?
    ensures Js.TrimValue(v).Str? && Text.Trim(Js.TrimValue(v).s) == Js.TrimValue(v).s
  {
    Text.TrimIdempotent(v.s);
  }

  /** A required amount of `0` counts as present: a body whose amounts are
      all zero is not refused for them. */
  lemma ZeroAmountIsPresent(body: Js.Body)
    requires Js.Get(body, "cantidad") == Js.Num(0.0)
    ensures "cantidad" !in BlankFields(body)
  {
  }

  /** The stored total does not depend on quantity or unit price. */
  lemma TotalNotRecomputed(body: Js.Body, d: Js.JsValue, cantidad: Js.JsValue, unitario: Js.JsValue)
    ensures InsumoRecord(body["cantidad" := cantidad]["valor_unitario" := unitario], d)["valor_total"]
         == InsumoRecord(body, d)["valor_total"]
  {
    var edited := body["cantidad" := cantidad]["valor_unitario" := unitario];
    assert "valor_total" in InsumoAmounts;
    assert Js.Get(edited, "valor_total") == Js.Get(body, "valor_total") by {
      assert "valor_total" != "cantidad" && "valor_total" != "valor_unitario";
    }
  }

  /** `updateInsumo`: 404 for an unknown id, else the body is written. */
  function HandleUpdateInsumo(t: Table, id: string, body: Js.Body): (o: Outcome)
    ensures o.code == 404 <==> id !in t
    ensures o.code != 404 ==> o.code == 200 && o.effect == Write(id, body)
    ensures o.code == 404 ==> o.effect == NoEffect
  {
    if id !in t then Answer(404, NoEffect) else Answer(200, Write(id, body))
  }

  /** `deleteInsumo`: 200 and the delete, whether or not the id exists. */
  function HandleDeleteInsumo(t: Table, id: string): (o: Outcome)
    ensures o.code == 200 && o.effect == Remove(id)
  {
    Answer(200, Remove(id))
  }

  // ---------------------------------------------------------------------
  // Users

  datatype Usuario = Usuario(id: int, nombre: Js.JsValue, email: Js.JsValue, password: Js.JsValue, role: Js.JsValue)

  predicate EmailTaken(users: seq<Usuario>, email: Js.JsValue) {
    exists i :: 0 <= i < |users| && users[i].email == email
  }

  /** No two users share an email. */
  predicate UniqueEmails(users: seq<Usuario>) {
    forall i, j :: 0 <= i < j < |users| ==> users[i].email != users[j].email
  }

  /** `createUsuario`: 400 when any of nombre, email, password and role is
      falsy, 400 when the email is registered — nothing inserted in either
      case; else exactly one user is appended with the new id, and 201. */
  function HandleCreateUsuario(users: seq<Usuario>, body: Js.Body, newId: int): (r: (nat, seq<Usuario>))
    ensures r.0 == 400 <==>
      !Js.Truthy(Js.Get(body, "nombre")) || !Js.Truthy(Js.Get(body, "email"))
      || !Js.Truthy(Js.Get(body, "password")) || !Js.Truthy(Js.Get(body, "role"))
      || EmailTaken(users, Js.Get(body, "email"))
    ensures r.0 == 400 ==> r.1 == users
    ensures r.0 != 400 ==>
      r.0 == 201 && |r.1| == |users| + 1 && r.1[..|users|] == users
      && r.1[|users|] == Usuario(newId, Js.Get(body, "nombre"), Js.Get(body, "email"),
                                  Js.Get(body, "password"), Js.Get(body, "role"))
  {
    var (nombre, email, password, role) :=
      (Js.Get(body, "nombre"), Js.Get(body, "email"), Js.Get(body, "password"), Js.Get(body, "role"));
    if !Js.Truthy(nombre) || !Js.Truthy(email) || !Js.Truthy(password) || !Js.Truthy(role) then (400, users)
    else if EmailTaken(users, email) then (400, users)
    else
      var added := users + [Usuario(newId, nombre, email, password, role)];
      assert added[..|users|] == users;
      (201, added)
  }

  /** Creating users keeps emails unique. */
  lemma CreateKeepsEmailsUnique(users: seq<Usuario>, body: Js.Body, newId: int)
    requires UniqueEmails(users)
    ensures UniqueEmails(HandleCreateUsuario(users, body, newId).1)
  {
    var (code, after) := HandleCreateUsuario(users, body, newId);
    if code != 400 {
      forall i, j | 0 <= i < j < |after| ensures after[i].email != after[j].email {
        if j == |users| {
          assert after[i] == users[i];
        } else {
          assert after[i] == users[i] && after[j] == users[j];
        }
      }
    }
  }

  /** A user as the `usuarios` queries select it: `id, nombre, email,
      role`, never the password. */
  datatype UsuarioView = UsuarioView(id: int, nombre: Js.JsValue, email: Js.JsValue, role: Js.JsValue)

  function View(u: Usuario): UsuarioView {
    UsuarioView(u.id, u.nombre, u.email, u.role)
  }

  /** `getAllUsuarios`: every user, in table order, through the
      password-free projection. */
  function ListUsuarios(users: seq<Usuario>): (r: seq<UsuarioView>)
    ensures |r| == |users|
    ensures forall i :: 0 <= i < |r| ==>
      r[i].id == users[i].id && r[i].email == users[i].email && r[i].nombre == users[i].nombre && r[i].role == users[i].role
  {
    seq(|users|, i requires 0 <= i < |users| => View(users[i]))
  }

  /** `getUsuarioById`: 404 when no row has the id, else the first, through
      the password-free projection. */
  function HandleGetUsuario(users: seq<Usuario>, id: int): (r: (nat, Option<UsuarioView>))
    ensures r.0 == 404 <==> forall i :: 0 <= i < |users| ==> users[i].id != id
    ensures r.0 == 404 || r.0 == 200
    ensures r.0 == 404 ==> r.1.None?
    ensures r.0 == 200 ==>
      r.1.Some? && r.1.value.id == id && exists i :: 0 <= i < |users| && r.1.value == View(users[i])
    decreases |users|
  {
    if users == [] then (404, None)
    else if users[0].id == id then (200, Some(View(users[0])))
    else
      var r := HandleGetUsuario(users[1..], id);
      assert forall i :: 1 <= i < |users| ==> users[i] == users[1..][i - 1];
      r
  }

  /** The user `getUsuarioById` answers with is the one `getAllUsuarios`
      lists, in the same projection. */
  lemma FoundUsuarioListed(users: seq<Usuario>, id: int)
    requires HandleGetUsuario(users, id).0 == 200
    ensures HandleGetUsuario(users, id).1.value in ListUsuarios(users)
  {
    var v := HandleGetUsuario(users, id).1.value;
    var i :| 0 <= i < |users| && v == View(users[i]);
    assert ListUsuarios(users)[i] == v;
  }

  /** A created user is found by id afterwards when the new id is fresh,
      and the answer carries the body's nombre, email and role. */
  lemma CreatedUsuarioFound(users: seq<Usuario>, body: Js.Body, newId: int)
    requires HandleCreateUsuario(users, body, newId).0 == 201
    requires forall i :: 0 <= i < |users| ==> users[i].id != newId
    ensures var after := HandleCreateUsuario(users, body, newId).1;
      HandleGetUsuario(after, newId) ==
        (200, Some(UsuarioView(newId, Js.Get(body, "nombre"), Js.Get(body, "email"), Js.Get(body, "role"))))
  {
    var after := HandleCreateUsuario(users, body, newId).1;
    assert after == users + [after[|users|]];
    GetUsuarioPastMisses(users, after[|users|], newId);
  }

  /** Looking up an id no earlier user has finds the appended one. */
  lemma {:induction false} GetUsuarioPastMisses(users: seq<Usuario>, u: Usuario, id: int)
    requires forall i :: 0 <= i < |users| ==> users[i].id != id
    requires u.id == id
    ensures HandleGetUsuario(users + [u], id) == (200, Some(View(u)))
    decreases |users|
  {
    if users != [] {
      assert (users + [u])[1..] == users[1..] + [u];
      GetUsuarioPastMisses(users[1..], u, id);
    }
  }
}
