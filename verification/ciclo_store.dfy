/** The SQL-backed crop cycles: the cycle model over an in-memory
    `ciclos_cultivo` table joined with the existing cultivo ids, and the
    decisions of the cycle controller. Column values pass through from the
    request body unchecked, so they are kept as JavaScript values. */
module CicloStore {
  import opened Wrappers
  import opened Seqs
  import Js
  import Status

  datatype Ciclo = Ciclo(
    idCiclo: Js.JsValue, nombre: Js.JsValue, descripcion: Js.JsValue,
    fechaInicial: Js.JsValue, fechaFinal: Js.JsValue, novedades: Js.JsValue,
    estado: Js.JsValue, idCultivo: Js.JsValue)

  /** The cycle table and the ids of the stored cultivos. */
  datatype Store = Store(ciclos: seq<Ciclo>, cultivos: set<string>)

  /** `cc.id_cultivo = c.id_cultivo` for some stored cultivo. */
  function Joined(cultivos: set<string>): Ciclo -> bool {
    (c: Ciclo) => c.idCultivo.Str? && c.idCultivo.s in cultivos
  }

  function WithId(id: string): Ciclo -> bool {
    (c: Ciclo) => c.idCiclo == Js.Str(id)
  }

  predicate Matches(rows: seq<Ciclo>, id: string) {
    exists i :: 0 <= i < |rows| && rows[i].idCiclo == Js.Str(id)
  }

  // ---------------------------------------------------------------------
  // Model

  /** `create`: one row from the body's columns, `estado` defaulting to
      `activo` when missing or falsy. */
  function Create(s: Store, body: Js.Body): (r: Store)
    ensures r.cultivos == s.cultivos && |r.ciclos| == |s.ciclos| + 1 && r.ciclos[..|s.ciclos|] == s.ciclos
    ensures var row := r.ciclos[|s.ciclos|];
      (Js.Truthy(Js.Get(body, "estado")) ==> row.estado == body["estado"])
      && (!Js.Truthy(Js.Get(body, "estado")) ==> row.estado == Js.Str(Status.Activo))
      && row.idCiclo == Js.Get(body, "id_ciclo") && row.idCultivo == Js.Get(body, "id_cultivo")
      && row.nombre == Js.Get(body, "nombre") && row.descripcion == Js.Get(body, "descripcion")
      && row.fechaInicial == Js.Get(body, "fecha_inicial") && row.fechaFinal == Js.Get(body, "fecha_final")
      && row.novedades == Js.Get(body, "novedades")
  {
    var row := Ciclo(Js.Get(body, "id_ciclo"), Js.Get(body, "nombre"), Js.Get(body, "descripcion"),
                     Js.Get(body, "fecha_inicial"), Js.Get(body, "fecha_final"), Js.Get(body, "novedades"),
                     Js.Or(Js.Get(body, "estado"), Js.Str(Status.Activo)), Js.Get(body, "id_cultivo"));
    assert (s.ciclos + [row])[..|s.ciclos|] == s.ciclos;
    s.(ciclos := s.ciclos + [row])
  }

  /** `getAll`: the cycles whose cultivo exists, in table order. */
  function GetAll(s: Store): (r: seq<Ciclo>)
    ensures IsSubsequence(r, s.ciclos)
    ensures forall c :: c in r <==> c in s.ciclos && c.idCultivo.Str? && c.idCultivo.s in s.cultivos
  {
    FilterSpec(s.ciclos, Joined(s.cultivos));
    Filter(s.ciclos, Joined(s.cultivos))
  }

  /** `getById`: the first cycle with the id whose cultivo exists. */
  function GetById(s: Store, id: string): (r: Option<Ciclo>)
    ensures r.Some? ==> r.value in s.ciclos && r.value.idCiclo == Js.Str(id) && r.value.idCultivo.Str? && r.value.idCultivo.s in s.cultivos
    ensures r.None? <==> forall c :: c in s.ciclos && c.idCiclo == Js.Str(id) ==> !(c.idCultivo.Str? && c.idCultivo.s in s.cultivos)
  {
    var hits := Filter(GetAll(s), WithId(id));
    FilterSpec(GetAll(s), WithId(id));
    if hits == [] then None
    else
      assert hits[0] in hits;
      Some(hits[0])
  }

  /** Applies `f` to the rows with the id and keeps the others. */
  function MapWithId(rows: seq<Ciclo>, id: string, f: Ciclo -> Ciclo): (r: seq<Ciclo>)
    ensures |r| == |rows|
    ensures forall i :: 0 <= i < |rows| ==> r[i] == if rows[i].idCiclo == Js.Str(id) then f(rows[i]) else rows[i]
  {
    if rows == [] then []
    else [if rows[0].idCiclo == Js.Str(id) then f(rows[0]) else rows[0]] + MapWithId(rows[1..], id, f)
  }

  /** The seven columns `update` writes, read from the body. */
  function Rewrite(body: Js.Body): Ciclo -> Ciclo {
    (c: Ciclo) => Ciclo(c.idCiclo, Js.Get(body, "nombre"), Js.Get(body, "descripcion"),
                        Js.Get(body, "fecha_inicial"), Js.Get(body, "fecha_final"),
                        Js.Get(body, "novedades"), Js.Get(body, "estado"), Js.Get(body, "id_cultivo"))
  }

  function SetEstado(estado: Js.JsValue): Ciclo -> Ciclo {
    (c: Ciclo) => c.(estado := estado)
  }

  /** A row carries the body's value (`NULL` when missing) in each of the
      seven columns `update` writes. */
  predicate Written(c: Ciclo, body: Js.Body) {
    c.nombre == Js.Get(body, "nombre") && c.descripcion == Js.Get(body, "descripcion")
    && c.fechaInicial == Js.Get(body, "fecha_inicial") && c.fechaFinal == Js.Get(body, "fecha_final")
    && c.novedades == Js.Get(body, "novedades") && c.estado == Js.Get(body, "estado")
    && c.idCultivo == Js.Get(body, "id_cultivo")
  }

  /** `update`: the seven data columns of the rows with the id take the
      body's values (a missing one becomes `NULL`); `id_ciclo` and the
      other rows stay. */
  function Update(s: Store, id: string, body: Js.Body): (r: Store)
    ensures r.cultivos == s.cultivos && |r.ciclos| == |s.ciclos|
    ensures forall i :: 0 <= i < |s.ciclos| ==>
      var (before, after) := (s.ciclos[i], r.ciclos[i]);
      after.idCiclo == before.idCiclo
      && (before.idCiclo == Js.Str(id) ==> Written(after, body))
      && (before.idCiclo != Js.Str(id) ==> after == before)
  {
    s.(ciclos := MapWithId(s.ciclos, id, Rewrite(body)))
  }

  /** Reading back after a full update: when some row has the id and the
      body names a stored cultivo, the joined lookup finds the row, and it
      carries every column the body wrote. */
  lemma UpdateReadBack(s: Store, id: string, body: Js.Body)
    requires Matches(s.ciclos, id)
    requires Js.Get(body, "id_cultivo").Str? && Js.Get(body, "id_cultivo").s in s.cultivos
    ensures GetById(Update(s, id, body), id).Some?
    ensures Written(GetById(Update(s, id, body), id).value, body)
  {
    var after := Update(s, id, body);
    var i :| 0 <= i < |s.ciclos| && s.ciclos[i].idCiclo == Js.Str(id);
    UpdatedRowWritten(s, id, body, i);
    assert after.ciclos[i] in after.ciclos;
    var found := GetById(after, id).value;
    var j :| 0 <= j < |after.ciclos| && after.ciclos[j] == found;
    UpdatedRowWritten(s, id, body, j);
  }

  lemma UpdatedRowWritten(s: Store, id: string, body: Js.Body, j: int)
    requires 0 <= j < |s.ciclos|
    ensures |Update(s, id, body).ciclos| == |s.ciclos|
    ensures Update(s, id, body).ciclos[j].idCiclo == s.ciclos[j].idCiclo
    ensures s.ciclos[j].idCiclo == Js.Str(id) ==> Written(Update(s, id, body).ciclos[j], body)
  {
  }

  /** `updateStatus` and `toggleStatus`: only `estado` of the rows with the
      id changes; the flag says whether a row matched. */
  function SetStatus(s: Store, id: string, estado: Js.JsValue): (r: (Store, bool))
    ensures r.1 <==> Matches(s.ciclos, id)
    ensures r.0.cultivos == s.cultivos && |r.0.ciclos| == |s.ciclos|
    ensures forall i :: 0 <= i < |s.ciclos| ==>
      r.0.ciclos[i] == if s.ciclos[i].idCiclo == Js.Str(id) then s.ciclos[i].(estado := estado) else s.ciclos[i]
  {
    (s.(ciclos := MapWithId(s.ciclos, id, SetEstado(estado))), Matches(s.ciclos, id))
  }

  function OfCultivo(cropId: string): Ciclo -> bool {
    (c: Ciclo) => c.idCultivo == Js.Str(cropId)
  }

  /** `getByCrop`: the cycles of that cultivo, without the join. */
  function GetByCrop(s: Store, cropId: string): (r: seq<Ciclo>)
    ensures IsSubsequence(r, s.ciclos)
    ensures forall c :: c in r <==> c in s.ciclos && c.idCultivo == Js.Str(cropId)
  {
    FilterSpec(s.ciclos, OfCultivo(cropId));
    Filter(s.ciclos, OfCultivo(cropId))
  }

  // ---------------------------------------------------------------------
  // Controller

  datatype Reply =
    | Created(insertId: int)
    | Listed(count: nat, rows: seq<Ciclo>)
    | Found(row: Ciclo)
    | Done(message: string)
    | BadRequest
    | NotFound

  function Code(r: Reply): nat {
    match r
    case Created(_) => 201
    case BadRequest => 400
    case NotFound => 404
    case _ => 200
  }

  /** `createCicloCultivo`: stored without checks, 201. */
  function HandleCreate(s: Store, body: Js.Body, insertId: int): (r: (Reply, Store))
    ensures Code(r.0) == 201 && r.1 == Create(s, body)
  {
    (Created(insertId), Create(s, body))
  }

  function HandleGetById(s: Store, id: string): (r: Reply)
    ensures r == NotFound <==> GetById(s, id).None?
    ensures r != NotFound ==> r == Found(GetById(s, id).value)
  {
    match GetById(s, id)
    case None => NotFound
    case Some(c) => Found(c)
  }

  /** A body whose one key is `estado`. */
  predicate EstadoOnly(body: Js.Body) {
    |body| == 1 && "estado" in body
  }

  /** `updateCicloCultivo`: a body holding only `estado` goes to the
      status update, whatever the value, and answers 404 when no row has
      the id; any other body is a full update, which always answers 200
      because the model hands back its result object, which is truthy. */
  function HandleUpdate(s: Store, id: string, body: Js.Body): (r: (Reply, Store))
    ensures r.0 == NotFound <==> EstadoOnly(body) && !Matches(s.ciclos, id)
    ensures r.0 != NotFound ==> Code(r.0) == 200
    ensures EstadoOnly(body) ==> r.1 == SetStatus(s, id, body["estado"]).0
    ensures !EstadoOnly(body) ==> r.1 == Update(s, id, body)
  {
    if EstadoOnly(body) then
      var (next, matched) := SetStatus(s, id, body["estado"]);
      (if matched then Done("Estado actualizado correctamente") else NotFound, next)
    else
      (Done("Ciclo de cultivo actualizado correctamente"), Update(s, id, body))
  }

  /** A full update never answers 404, even for an unknown id. */
  lemma FullUpdateNeverNotFound(s: Store, id: string, body: Js.Body)
    requires !EstadoOnly(body) && !Matches(s.ciclos, id)
    ensures HandleUpdate(s, id, body).0 != NotFound
    ensures HandleUpdate(s, id, body).1 == s
  {
    var r := Update(s, id, body).ciclos;
    assert forall i :: 0 <= i < |s.ciclos| ==> r[i] == s.ciclos[i];
  }

  /** `toggleCicloCultivoStatus`: a missing `estado` or one other than
      `activo`/`inactivo` is refused with 400 before any lookup; an id the
      joined lookup does not find answers 404; otherwise the status is
      written and the answer is 200. */
  function HandleToggle(s: Store, id: string, estado: Js.JsValue): (r: (Reply, Store))
    ensures r.0 == BadRequest <==> !ValidEstado(estado)
    ensures r.0 == NotFound <==> ValidEstado(estado) && GetById(s, id).None?
    ensures Code(r.0) != 200 ==> r.1 == s
    ensures Code(r.0) == 200 ==> r.1 == SetStatus(s, id, estado).0
  {
    if !Js.Truthy(estado) || !ValidEstado(estado) then (BadRequest, s)
    else
      var found := GetById(s, id).Some?;
      if !found then (NotFound, s)
      else (Done(ToggleMessage(estado.s)), SetStatus(s, id, estado).0)
  }

  /** `activo` or `inactivo` as a string. */
  predicate ValidEstado(v: Js.JsValue) {
    v.Str? && Status.IsStatus(v.s)
  }

  function ToggleMessage(estado: string): string {
    if estado == Status.Activo then "Ciclo de cultivo activado correctamente"
    else "Ciclo de cultivo desactivado correctamente"
  }

  /** A stored cycle whose cultivo is gone cannot be toggled: the joined
      lookup misses it and the answer is 404. */
  lemma ToggleOrphanNotFound(s: Store, id: string, estado: Js.JsValue)
    requires ValidEstado(estado)
    requires forall c :: c in s.ciclos && c.idCiclo == Js.Str(id) ==> !(c.idCultivo.Str? && c.idCultivo.s in s.cultivos)
    ensures HandleToggle(s, id, estado).0 == NotFound
  {
  }

  /** `getCiclosByCrop`: 200 with a count equal to the rows returned. */
  function HandleGetByCrop(s: Store, cropId: string): (r: Reply)
    ensures r.Listed? && r.count == |r.rows| && r.rows == GetByCrop(s, cropId)
  {
    var rows := GetByCrop(s, cropId);
    Listed(|rows|, rows)
  }

  /** `getAllCiclosCultivo`: 200 with a count equal to the rows returned. */
  function HandleGetAll(s: Store): (r: Reply)
    ensures r.Listed? && r.count == |r.rows| && r.rows == GetAll(s)
  {
    var rows := GetAll(s);
    Listed(|rows|, rows)
  }

  /** A created cycle whose cultivo exists is found by `getById`: the
      lookup then answers with a row rather than with nothing. */
  lemma CreatedVisible(s: Store, body: Js.Body, id: string)
    requires Js.Get(body, "id_ciclo") == Js.Str(id)
    requires Js.Get(body, "id_cultivo").Str? && Js.Get(body, "id_cultivo").s in s.cultivos
    ensures GetById(Create(s, body), id).Some?
  {
    var s1 := Create(s, body);
    var row := s1.ciclos[|s.ciclos|];
    assert row in s1.ciclos;
  }
}
