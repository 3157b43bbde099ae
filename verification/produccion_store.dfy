/** The server side of productions: the table operations of the production
    model over an in-memory table, and the status and store effect of each
    controller handler. */
module ProduccionStore {
  import opened Wrappers
  import opened Seqs
  import Dates
  import Status
  import Sorting

  /** One row of `producciones`. */
  datatype Produccion = Produccion(
    idProduccion: string, idResponsable: string, nombre: string, idCultivo: string,
    idCicloCultivo: string, inversion: real, meta: real,
    fechaInicio: Dates.Date, fechaFin: Option<Dates.Date>, estado: string)

  /** The nine columns an update writes: everything but the id. */
  datatype ProduccionData = ProduccionData(
    idResponsable: string, nombre: string, idCultivo: string, idCicloCultivo: string,
    inversion: real, meta: real, fechaInicio: Dates.Date, fechaFin: Option<Dates.Date>, estado: string)

  /** One row of `uso_insumo`; `fechaUso` is a timestamp. */
  datatype Usage = Usage(
    idProduccion: string, idInsumo: string, cantidad: real, fechaUso: int,
    idResponsable: string, valorUnitario: real, valorTotal: real, observaciones: string)

  datatype Store = Store(producciones: seq<Produccion>, usos: seq<Usage>)

  function StartKey(p: Produccion): int {
    Dates.Ordinal(p.fechaInicio)
  }

  function UseKey(u: Usage): int {
    u.fechaUso
  }

  // ---------------------------------------------------------------------
  // Model

  function WithId(id: string): Produccion -> bool {
    (p: Produccion) => p.idProduccion == id
  }

  predicate Matches(rows: seq<Produccion>, id: string) {
    exists i :: 0 <= i < |rows| && rows[i].idProduccion == id
  }

  /** `getAll`: every row, latest start first. */
  function GetAll(s: Store): (r: seq<Produccion>)
    ensures multiset(r) == multiset(s.producciones)
    ensures Sorting.SortedDesc(r, StartKey)
  {
    Sorting.SortDesc(s.producciones, StartKey)
  }

  /** `getById`: the first row with the id. */
  function GetById(s: Store, id: string): (r: Option<Produccion>)
    ensures r.None? <==> !Matches(s.producciones, id)
    ensures r.Some? ==> r.value in s.producciones && r.value.idProduccion == id
  {
    var hits := Filter(s.producciones, WithId(id));
    FilterSpec(s.producciones, WithId(id));
    if hits == [] then
      assert !Matches(s.producciones, id) by {
        forall i | 0 <= i < |s.producciones| ensures s.producciones[i].idProduccion != id {
          assert s.producciones[i] in s.producciones;
        }
      }
      None
    else
      assert hits[0] in hits;
      Some(hits[0])
  }

  /** Row `p` with the nine data columns replaced. */
  function Overwrite(p: Produccion, d: ProduccionData): Produccion {
    Produccion(p.idProduccion, d.idResponsable, d.nombre, d.idCultivo, d.idCicloCultivo,
               d.inversion, d.meta, d.fechaInicio, d.fechaFin, d.estado)
  }

  /** Applies `f` to the rows with the id and keeps the others. */
  function MapWithId(rows: seq<Produccion>, id: string, f: Produccion -> Produccion): (r: seq<Produccion>)
    ensures |r| == |rows|
    ensures forall i :: 0 <= i < |rows| ==> r[i] == if rows[i].idProduccion == id then f(rows[i]) else rows[i]
  {
    if rows == [] then []
    else [if rows[0].idProduccion == id then f(rows[0]) else rows[0]] + MapWithId(rows[1..], id, f)
  }

  function OverwriteWith(d: ProduccionData): Produccion -> Produccion {
    (p: Produccion) => Overwrite(p, d)
  }

  function SetEstado(estado: string): Produccion -> Produccion {
    (p: Produccion) => p.(estado := estado)
  }

  /** `update`: the nine columns of every row with the id take the new
      values, the id and all other rows stay; true iff a row matched. */
  function Update(s: Store, id: string, d: ProduccionData): (r: (Store, bool))
    ensures r.1 <==> Matches(s.producciones, id)
    ensures |r.0.producciones| == |s.producciones| && r.0.usos == s.usos
    ensures forall i :: 0 <= i < |s.producciones| ==>
      var (before, after) := (s.producciones[i], r.0.producciones[i]);
      after.idProduccion == before.idProduccion
      && (before.idProduccion == id ==> after == Overwrite(before, d))
      && (before.idProduccion != id ==> after == before)
  {
    (s.(producciones := MapWithId(s.producciones, id, OverwriteWith(d))), Matches(s.producciones, id))
  }

  /** `updateStatus`: only `estado` of the rows with the id changes; true
      iff a row matched. */
  function UpdateStatus(s: Store, id: string, estado: string): (r: (Store, bool))
    ensures r.1 <==> Matches(s.producciones, id)
    ensures |r.0.producciones| == |s.producciones| && r.0.usos == s.usos
    ensures forall i :: 0 <= i < |s.producciones| ==>
      var (before, after) := (s.producciones[i], r.0.producciones[i]);
      (before.idProduccion == id ==> after == before.(estado := estado))
      && (before.idProduccion != id ==> after == before)
  {
    (s.(producciones := MapWithId(s.producciones, id, SetEstado(estado))), Matches(s.producciones, id))
  }

  function Without(id: string): Produccion -> bool {
    (p: Produccion) => p.idProduccion != id
  }

  /** `delete`: the rows with the id go, the rest stay in order; true iff
      one was removed. */
  function Delete(s: Store, id: string): (r: (Store, bool))
    ensures r.1 <==> |r.0.producciones| < |s.producciones|
    ensures r.1 <==> Matches(s.producciones, id)
    ensures IsSubsequence(r.0.producciones, s.producciones) && r.0.usos == s.usos
    ensures forall p :: p in r.0.producciones <==> p in s.producciones && p.idProduccion != id
  {
    var kept := Filter(s.producciones, Without(id));
    FilterIsSubsequence(s.producciones, Without(id));
    FilterSpec(s.producciones, Without(id));
    DeleteShrinks(s.producciones, id);
    (s.(producciones := kept), |kept| < |s.producciones|)
  }

  lemma {:induction false} DeleteShrinks(rows: seq<Produccion>, id: string)
    ensures |Filter(rows, Without(id))| < |rows| <==> Matches(rows, id)
  {
    if rows != [] {
      DeleteShrinks(rows[1..], id);
      assert Matches(rows, id) <==> rows[0].idProduccion == id || Matches(rows[1..], id) by {
        if Matches(rows, id) {
          var i :| 0 <= i < |rows| && rows[i].idProduccion == id;
          if i > 0 { assert rows[1..][i - 1] == rows[i]; }
        }
        if Matches(rows[1..], id) {
          var i :| 0 <= i < |rows[1..]| && rows[1..][i].idProduccion == id;
          assert rows[i + 1] == rows[1..][i];
        }
      }
    }
  }

  function OfCiclo(cicloId: string): Produccion -> bool {
    (p: Produccion) => p.idCicloCultivo == cicloId
  }

  /** `getByCicloId`: the rows of that cycle, latest start first. */
  function GetByCicloId(s: Store, cicloId: string): (r: seq<Produccion>)
    ensures forall p :: p in r <==> p in s.producciones && p.idCicloCultivo == cicloId
    ensures Sorting.SortedDesc(r, StartKey)
    ensures multiset(r) == multiset(Filter(s.producciones, OfCiclo(cicloId)))
  {
    var hits := Filter(s.producciones, OfCiclo(cicloId));
    FilterSpec(s.producciones, OfCiclo(cicloId));
    forall p ensures p in Sorting.SortDesc(hits, StartKey) <==> p in hits {
      Sorting.SortDescMembership(hits, StartKey, p);
    }
    Sorting.SortDesc(hits, StartKey)
  }

  /** `fecha_inicio BETWEEN start AND end AND estado = 'activo'`. */
  function InRangeActive(start: Dates.Date, end: Dates.Date): Produccion -> bool {
    (p: Produccion) => Dates.LessEq(start, p.fechaInicio) && Dates.LessEq(p.fechaInicio, end) && p.estado == Status.Activo
  }

  /** `getByDateRange`: the active rows starting within the inclusive
      range, latest start first. */
  function GetByDateRange(s: Store, start: Dates.Date, end: Dates.Date): (r: seq<Produccion>)
    ensures forall p :: p in r <==>
      p in s.producciones && Dates.LessEq(start, p.fechaInicio) && Dates.LessEq(p.fechaInicio, end)
      && p.estado == Status.Activo
    ensures Sorting.SortedDesc(r, StartKey)
    ensures multiset(r) == multiset(Filter(s.producciones, InRangeActive(start, end)))
  {
    var hits := Filter(s.producciones, InRangeActive(start, end));
    FilterSpec(s.producciones, InRangeActive(start, end));
    forall p ensures p in Sorting.SortDesc(hits, StartKey) <==> p in hits {
      Sorting.SortDescMembership(hits, StartKey, p);
    }
    Sorting.SortDesc(hits, StartKey)
  }

  /** The optional columns of a usage request; a missing `fecha_uso`
      becomes the current time. */
  datatype UsageRequest = UsageRequest(
    idProduccion: string, idInsumo: string, cantidad: real, fechaUso: Option<int>,
    idResponsable: string, valorUnitario: real, valorTotal: real, observaciones: string)

  /** `registerInsumoUsage`: exactly one row appended, the total stored as
      given, the time defaulting to `now`. */
  function RegisterUsage(s: Store, u: UsageRequest, now: int): (r: Store)
    ensures r.producciones == s.producciones
    ensures |r.usos| == |s.usos| + 1 && r.usos[..|s.usos|] == s.usos
    ensures r.usos[|s.usos|] ==
      Usage(u.idProduccion, u.idInsumo, u.cantidad, if u.fechaUso.Some? then u.fechaUso.value else now,
            u.idResponsable, u.valorUnitario, u.valorTotal, u.observaciones)
  {
    var when := if u.fechaUso.Some? then u.fechaUso.value else now;
    var row := Usage(u.idProduccion, u.idInsumo, u.cantidad, when, u.idResponsable,
                     u.valorUnitario, u.valorTotal, u.observaciones);
    assert (s.usos + [row])[..|s.usos|] == s.usos;
    s.(usos := s.usos + [row])
  }

  /** A usage row of the production whose insumo and user both exist (the
      two inner joins). */
  function Joined(produccionId: string, insumos: set<string>, usuarios: set<string>): Usage -> bool {
    (u: Usage) => u.idProduccion == produccionId && u.idInsumo in insumos && u.idResponsable in usuarios
  }

  /** `getInsumoUsage`: the production's usage rows that join an existing
      insumo and user, newest first. */
  function GetInsumoUsage(s: Store, produccionId: string, insumos: set<string>, usuarios: set<string>)
    : (r: seq<Usage>)
    ensures forall u :: u in r <==>
      u in s.usos && u.idProduccion == produccionId && u.idInsumo in insumos && u.idResponsable in usuarios
    ensures Sorting.SortedDesc(r, UseKey)
    ensures multiset(r) == multiset(Filter(s.usos, Joined(produccionId, insumos, usuarios)))
  {
    var hits := Filter(s.usos, Joined(produccionId, insumos, usuarios));
    FilterSpec(s.usos, Joined(produccionId, insumos, usuarios));
    forall u ensures u in Sorting.SortDesc(hits, UseKey) <==> u in hits {
      Sorting.SortDescMembership(hits, UseKey, u);
    }
    Sorting.SortDesc(hits, UseKey)
  }

  /** Registering usage is append-only: the rows a production had are all
      still there after any further registration, of any production. */
  lemma UsageAppendOnly(s: Store, u: UsageRequest, now: int, produccionId: string, insumos: set<string>,
                        usuarios: set<string>, x: Usage)
    requires x in GetInsumoUsage(s, produccionId, insumos, usuarios)
    ensures x in GetInsumoUsage(RegisterUsage(s, u, now), produccionId, insumos, usuarios)
  {
    var r := RegisterUsage(s, u, now);
    assert x in s.usos;
    var i :| 0 <= i < |s.usos| && s.usos[i] == x;
    assert r.usos[i] == r.usos[..|s.usos|][i];
  }

  /** A registered usage whose insumo and user exist is listed for its
      production afterwards, and the listing gains nothing else. */
  lemma RegisteredUsageListed(s: Store, u: UsageRequest, now: int, insumos: set<string>, usuarios: set<string>)
    requires u.idInsumo in insumos && u.idResponsable in usuarios
    ensures var after := GetInsumoUsage(RegisterUsage(s, u, now), u.idProduccion, insumos, usuarios);
      RegisterUsage(s, u, now).usos[|s.usos|] in after
      && forall x :: x in after ==>
           x == RegisterUsage(s, u, now).usos[|s.usos|] || x in GetInsumoUsage(s, u.idProduccion, insumos, usuarios)
  {
    var r := RegisterUsage(s, u, now);
    assert r.usos == s.usos + [r.usos[|s.usos|]];
  }

  // ---------------------------------------------------------------------
  // Controller

  /** What a handler answers. */
  datatype Reply =
    | Created(insertId: int)
    | Found(row: Produccion)
    | Listed(rows: seq<Produccion>)
    | Done(message: string)
    | BadRequest
    | NotFound

  function Code(r: Reply): nat {
    match r
    case Created(_) => 201
    case BadRequest => 400
    case NotFound => 404
    case _ => 200
  }

  /** `create`: the body is stored as it is, without checks; the answer is
      201 with the id the database reports. */
  function HandleCreate(s: Store, body: Produccion, insertId: int): (r: (Reply, Store))
    ensures Code(r.0) == 201 && r.0 == Created(insertId)
    ensures r.1.producciones == s.producciones + [body] && r.1.usos == s.usos
  {
    (Created(insertId), s.(producciones := s.producciones + [body]))
  }

  function HandleGetById(s: Store, id: string): (r: Reply)
    ensures r == NotFound <==> !Matches(s.producciones, id)
    ensures r != NotFound ==> r.Found? && r.row.idProduccion == id
  {
    match GetById(s, id)
    case None => NotFound
    case Some(p) => Found(p)
  }

  /** `update`: 404 when no row has the id (the store is then unchanged). */
  function HandleUpdate(s: Store, id: string, d: ProduccionData): (r: (Reply, Store))
    ensures r.0 == NotFound <==> !Matches(s.producciones, id)
    ensures r.0 == NotFound ==> r.1 == s
    ensures r.0 != NotFound ==> Code(r.0) == 200 && r.1 == Update(s, id, d).0
  {
    var (next, matched) := Update(s, id, d);
    if !matched then
      MapUnmatched(s.producciones, id, OverwriteWith(d));
      (NotFound, s)
    else (Done("Producción actualizada correctamente"), next)
  }

  /** Nothing matches: mapping over the id changes nothing. */
  lemma MapUnmatched(rows: seq<Produccion>, id: string, f: Produccion -> Produccion)
    requires !Matches(rows, id)
    ensures MapWithId(rows, id, f) == rows
  {
    var r := MapWithId(rows, id, f);
    assert forall i :: 0 <= i < |rows| ==> r[i] == rows[i];
  }

  function HandleDelete(s: Store, id: string): (r: (Reply, Store))
    ensures r.0 == NotFound <==> !Matches(s.producciones, id)
    ensures r.0 != NotFound ==> Code(r.0) == 200 && r.1 == Delete(s, id).0
    ensures r.0 == NotFound ==> r.1 == s
  {
    var (next, removed) := Delete(s, id);
    if !removed then (NotFound, s) else (Done("Producción eliminada correctamente"), next)
  }

  /** `updateStatus`: a missing `estado` or one other than `activo` and
      `inactivo` is refused with 400 before the table is touched; then 404
      when no row has the id; else 200. */
  function HandleUpdateStatus(s: Store, id: string, estado: Option<string>): (r: (Reply, Store))
    ensures r.0 == BadRequest <==> estado.None? || !Status.IsStatus(estado.value)
    ensures r.0 == BadRequest ==> r.1 == s
    ensures r.0 == NotFound <==> estado.Some? && Status.IsStatus(estado.value) && !Matches(s.producciones, id)
    ensures r.0 == NotFound ==> r.1 == s
    ensures Code(r.0) == 200 ==> r.1 == UpdateStatus(s, id, estado.value).0
  {
    if estado.None? || estado.value == "" || !Status.IsStatus(estado.value) then (BadRequest, s)
    else
      var (next, matched) := UpdateStatus(s, id, estado.value);
      if !matched then
        MapUnmatched(s.producciones, id, SetEstado(estado.value));
        (NotFound, s)
      else
        (Done(if estado.value == Status.Activo then "Producción activada correctamente"
              else "Producción desactivada correctamente"), next)
  }

  /** `getByDateRange`: 400 when either bound is missing or empty;
      otherwise success with the selection, possibly empty. A bound that
      is not a date selects nothing. */
  function HandleGetByDateRange(s: Store, startDate: string, endDate: string): (r: Reply)
    ensures r == BadRequest <==> startDate == "" || endDate == ""
    ensures r != BadRequest ==> r.Listed?
    ensures r.Listed? && Dates.ParseIso(startDate).Some? && Dates.ParseIso(endDate).Some? ==>
      r.rows == GetByDateRange(s, Dates.ParseIso(startDate).value, Dates.ParseIso(endDate).value)
  {
    if startDate == "" || endDate == "" then BadRequest
    else
      match (Dates.ParseIso(startDate), Dates.ParseIso(endDate))
      case (Some(a), Some(b)) => Listed(GetByDateRange(s, a, b))
      case _ => Listed([])
  }

  /** After a successful status change the row reads back with the new
      state, and a second change to the other state restores the first. */
  lemma StatusRoundTrip(s: Store, id: string, e: string)
    requires Status.IsStatus(e) && Matches(s.producciones, id)
    ensures Code(HandleUpdateStatus(s, id, Some(e)).0) == 200
    ensures var s1 := HandleUpdateStatus(s, id, Some(e)).1;
      HandleGetById(s1, id).Found? && HandleGetById(s1, id).row.estado == e
  {
    var s1 := UpdateStatus(s, id, e).0;
    assert HandleUpdateStatus(s, id, Some(e)).1 == s1;
    var i :| 0 <= i < |s.producciones| && s.producciones[i].idProduccion == id;
    assert s1.producciones[i].idProduccion == id;
    var hit := GetById(s1, id);
    assert hit.Some?;
    StatusSetEverywhere(s, id, e, hit.value);
  }

  /** After a status change every row with the id has the new state. */
  lemma StatusSetEverywhere(s: Store, id: string, e: string, p: Produccion)
    requires p in UpdateStatus(s, id, e).0.producciones && p.idProduccion == id
    ensures p.estado == e
  {
    var rows := UpdateStatus(s, id, e).0.producciones;
    var j :| 0 <= j < |rows| && rows[j] == p;
    assert s.producciones[j].idProduccion == id;
  }
}
