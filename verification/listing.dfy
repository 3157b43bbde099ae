/** The list views of productions, sensors, cycles, cultivos and insumos:
    how each normalises what the server returned, filters it, totals it and
    builds the request its toggle button sends. */
module Listing {
  import opened Wrappers
  import opened Seqs
  import Text
  import Dates
  import Js
  import opened Status
  import Paging

  /** `field.toLowerCase().includes(term)`. */
  predicate Hit(field: string, term: string) {
    Text.Contains(Text.Lower(field), term)
  }

  /** The search box value as the sensor, cultivo and insumo lists keep it
      (trimmed, then lowered); the production and cycle lists only lower it. */
  function SearchTerm(input: string, trim: bool): (t: string)
    ensures |t| <= |input|
  {
    Text.Lower(if trim then Text.Trim(input) else input)
  }

  /** A lowered term searches case-insensitively: a row whose field holds
      the typed text, in any case, is found. */
  lemma SearchFindsTypedText(field: string, input: string)
    requires Text.Contains(field, input)
    ensures Hit(field, SearchTerm(input, false))
  {
    Text.ContainsIff(field, input);
    var i :| Text.OccursAt(field, input, i);
    var lf := Text.Lower(field);
    var li := Text.Lower(input);
    assert lf[i..i + |li|] == li;
    assert Text.OccursAt(lf, li, i);
    Text.ContainsIff(lf, li);
  }

  // ---------------------------------------------------------------------
  // Productions

  datatype ProduccionRow = ProduccionRow(id: string, nombre: string, estado: string, fechaInicio: string, inversion: Js.JsValue)

  /** The filter bar: search term, estado (`todos` for any) and the two
      optional date inputs. */
  datatype ProduccionFilters = ProduccionFilters(search: string, estado: string, desde: string, hasta: string)

  const Todos: string := "todos"
  const NoProduccionFilters: ProduccionFilters := ProduccionFilters("", Todos, "", "")

  /** The start date is not before the `desde` input; an empty input
      accepts every row, and a date that does not parse compares false. */
  predicate FromOk(desde: string, fecha: string) {
    desde == ""
    || (Dates.ParseIso(desde).Some? && Dates.ParseDateTime(fecha).Some?
        && Dates.LessEq(Dates.ParseIso(desde).value, Dates.ParseDateTime(fecha).value))
  }

  /** The start date is not after the `hasta` input. */
  predicate UntilOk(hasta: string, fecha: string) {
    hasta == ""
    || (Dates.ParseIso(hasta).Some? && Dates.ParseDateTime(fecha).Some?
        && Dates.LessEq(Dates.ParseDateTime(fecha).value, Dates.ParseIso(hasta).value))
  }

  predicate ProduccionMatches(f: ProduccionFilters, p: ProduccionRow) {
    (f.search == "" || Hit(p.nombre, f.search) || Hit(p.id, f.search))
    && (f.estado == Todos || p.estado == f.estado)
    && FromOk(f.desde, p.fechaInicio)
    && UntilOk(f.hasta, p.fechaInicio)
  }

  /** `applyFilters` of the production list. */
  function FilterProducciones(rows: seq<ProduccionRow>, f: ProduccionFilters): (r: seq<ProduccionRow>)
    ensures IsSubsequence(r, rows)
    ensures forall x :: x in r <==> x in rows && ProduccionMatches(f, x)
  {
    FilterSpec(rows, p => ProduccionMatches(f, p));
    Filter(rows, p => ProduccionMatches(f, p))
  }

  /** With no search, `todos` and no dates every production is listed. */
  lemma ProduccionNoFilters(rows: seq<ProduccionRow>)
    ensures FilterProducciones(rows, NoProduccionFilters) == rows
  {
    FilterAll(rows, p => ProduccionMatches(NoProduccionFilters, p));
  }

  /** For a row with a readable start date and two readable bounds, the
      date filter keeps it exactly when the date lies between the bounds,
      both included. */
  lemma DateBoundsInclusive(desde: string, hasta: string, p: ProduccionRow)
    requires Dates.ParseIso(desde).Some? && Dates.ParseIso(hasta).Some?
    requires Dates.ParseDateTime(p.fechaInicio).Some?
    ensures var d := Dates.ParseDateTime(p.fechaInicio).value;
            FromOk(desde, p.fechaInicio) && UntilOk(hasta, p.fechaInicio)
            <==> Dates.LessEq(Dates.ParseIso(desde).value, d) && Dates.LessEq(d, Dates.ParseIso(hasta).value)
  {
  }

  /** Each bound works alone: with only `desde` set, the rows kept are
      those whose date is on or after it. */
  lemma DateBoundAlone(desde: string, p: ProduccionRow)
    ensures ProduccionMatches(ProduccionFilters("", Todos, desde, ""), p) <==> FromOk(desde, p.fechaInicio)
    ensures ProduccionMatches(ProduccionFilters("", Todos, "", desde), p) <==> UntilOk(desde, p.fechaInicio)
  {
  }

  /** The investment boxes above the production table. */
  datatype Summary = Summary(total: real, activa: real, inactiva: real)

  /** `parseFloat(inversion) || 0`. */
  function Amount(p: ProduccionRow): real {
    Js.NumberOrZero(p.inversion)
  }

  predicate IsActive(p: ProduccionRow) { p.estado == Activo }
  predicate IsInactive(p: ProduccionRow) { p.estado == Inactivo }

  /** `updateInvestmentSummary`: all, active and inactive sums. */
  function Summarize(rows: seq<ProduccionRow>): Summary {
    Summary(SumOf(rows, Amount),
            SumOf(Filter(rows, IsActive), Amount),
            SumOf(Filter(rows, IsInactive), Amount))
  }

  /** When every estado is `activo` or `inactivo`, the total is the active
      sum plus the inactive sum. */
  lemma SummaryAddsUp(rows: seq<ProduccionRow>)
    requires forall i :: 0 <= i < |rows| ==> IsStatus(rows[i].estado)
    ensures Summarize(rows).total == Summarize(rows).activa + Summarize(rows).inactiva
  {
    SumOfSplit(rows, Amount, IsActive, IsInactive);
  }

  /** An inversion that is not a number counts as 0. */
  lemma NonNumericAmount(p: ProduccionRow)
    requires !p.inversion.Num? && !p.inversion.Str?
    ensures Amount(p) == 0.0
  {
  }

  /** One more production adds its amount to the total and to the box of
      its estado, and leaves the other box alone. */
  lemma SummaryOfAppend(rows: seq<ProduccionRow>, p: ProduccionRow)
    ensures Summarize(rows + [p]).total == Summarize(rows).total + Amount(p)
    ensures Summarize(rows + [p]).activa == Summarize(rows).activa + (if IsActive(p) then Amount(p) else 0.0)
    ensures Summarize(rows + [p]).inactiva == Summarize(rows).inactiva + (if IsInactive(p) then Amount(p) else 0.0)
  {
    SumOfSnoc(rows, p, Amount);
    FilterAppend(rows, [p], IsActive);
    FilterAppend(rows, [p], IsInactive);
    if IsActive(p) {
      assert Filter([p], IsActive) == [p];
      SumOfSnoc(Filter(rows, IsActive), p, Amount);
    } else {
      assert Filter(rows, IsActive) + Filter([p], IsActive) == Filter(rows, IsActive);
    }
    if IsInactive(p) {
      assert Filter([p], IsInactive) == [p];
      SumOfSnoc(Filter(rows, IsInactive), p, Amount);
    } else {
      assert Filter(rows, IsInactive) + Filter([p], IsInactive) == Filter(rows, IsInactive);
    }
  }

  // ---------------------------------------------------------------------
  // Loading

  /** The `data` field of a list response: an array, or some other value
      (missing, `null`, an object) that is truthy or not. */
  datatype Data<T> = ArrayData(rows: seq<T>) | OtherData(truthy: bool)

  /** The full list and the filtered list after a load. */
  datatype Loaded<T> = Loaded(all: seq<T>, filtered: seq<T>)

  /** `loadProducciones`: anything but an array gives an empty list, and
      the filtered list starts as the full list. */
  function LoadProducciones<T>(data: Data<T>): (l: Loaded<T>)
    ensures l.filtered == l.all
    ensures l.all == if data.ArrayData? then data.rows else []
  {
    var rows := if data.ArrayData? then data.rows else [];
    Loaded(rows, rows)
  }

  /** `loadInsumos` (`response.data || []`): a falsy value gives an empty
      list; a truthy value that is not an array cannot be copied and the
      load fails (`None`). */
  function LoadInsumos<T>(data: Data<T>): (r: Option<Loaded<T>>)
    ensures r.Some? <==> !(data.OtherData? && data.truthy)
    ensures r.Some? ==> r.value.filtered == r.value.all
    ensures r.Some? ==> r.value.all == if data.ArrayData? then data.rows else []
  {
    match data
    case ArrayData(rows) => Some(Loaded(rows, rows))
    case OtherData(truthy) => if truthy then None else Some(Loaded([], []))
  }

  /** Right after a load the table shows what the empty filter bar
      selects. */
  lemma LoadedIsUnfiltered(data: Data<ProduccionRow>)
    ensures LoadProducciones(data).filtered == FilterProducciones(LoadProducciones(data).all, NoProduccionFilters)
  {
    ProduccionNoFilters(LoadProducciones(data).all);
  }

  // ---------------------------------------------------------------------
  // Sensors

  datatype SensorRow = SensorRow(id: string, nombre: string, tipo: string, estado: string)
  datatype SensorFilters = SensorFilters(search: string, tipo: string, estado: string)

  predicate SensorMatches(f: SensorFilters, s: SensorRow) {
    (f.search == "" || Hit(s.nombre, f.search) || Hit(s.id, f.search) || Hit(s.tipo, f.search))
    && (f.tipo == "" || s.tipo == f.tipo)
    && (f.estado == "" || s.estado == f.estado)
  }

  /** `applyFilters` of the sensor list: keeps the matching sensors in
      order and goes back to page 1. */
  function FilterSensors(v: Paging.ListView<SensorRow>, f: SensorFilters): (r: Paging.ListView<SensorRow>)
    ensures r.page == 1 && r.all == v.all && r.pageSize == v.pageSize
    ensures IsSubsequence(r.filtered, v.all)
    ensures forall x :: x in r.filtered <==> x in v.all && SensorMatches(f, x)
  {
    FilterSpec(v.all, s => SensorMatches(f, s));
    Paging.SetFiltered(v, Filter(v.all, s => SensorMatches(f, s)))
  }

  /** Empty filters list every sensor. */
  lemma SensorNoFilters(v: Paging.ListView<SensorRow>)
    ensures FilterSensors(v, SensorFilters("", "", "")).filtered == v.all
  {
    FilterAll(v.all, s => SensorMatches(SensorFilters("", "", ""), s));
  }

  // ---------------------------------------------------------------------
  // Cycles

  datatype CicloRow = CicloRow(id: string, nombre: string, cultivo: string, estado: string)
  datatype CicloFilters = CicloFilters(search: string, cultivo: string, estado: string)

  /** The cycle list has no empty-term shortcut; an empty term still
      matches because every string includes the empty string. */
  predicate CicloMatches(f: CicloFilters, c: CicloRow) {
    (Hit(c.nombre, f.search) || Hit(c.id, f.search))
    && (f.cultivo == "" || c.cultivo == f.cultivo)
    && (f.estado == "" || c.estado == f.estado)
  }

  function FilterCiclos(v: Paging.ListView<CicloRow>, f: CicloFilters): (r: Paging.ListView<CicloRow>)
    ensures r.page == 1 && r.all == v.all && r.pageSize == v.pageSize
    ensures IsSubsequence(r.filtered, v.all)
    ensures forall x :: x in r.filtered <==> x in v.all && CicloMatches(f, x)
  {
    FilterSpec(v.all, c => CicloMatches(f, c));
    Paging.SetFiltered(v, Filter(v.all, c => CicloMatches(f, c)))
  }

  lemma CicloNoFilters(v: Paging.ListView<CicloRow>)
    ensures FilterCiclos(v, CicloFilters("", "", "")).filtered == v.all
  {
    forall i | 0 <= i < |v.all| ensures CicloMatches(CicloFilters("", "", ""), v.all[i]) {
      Text.ContainsEmpty(Text.Lower(v.all[i].nombre));
    }
    FilterAll(v.all, c => CicloMatches(CicloFilters("", "", ""), c));
  }

  // ---------------------------------------------------------------------
  // Cultivos (the list module kept under the usuarios directory)

  datatype CultivoRow = CultivoRow(id: string, nombre: string, tipo: string, estado: string)
  datatype CultivoFilters = CultivoFilters(search: string, tipo: string, estado: string)

  predicate CultivoMatches(f: CultivoFilters, c: CultivoRow) {
    (f.search == "" || Hit(c.nombre, f.search) || Hit(c.id, f.search))
    && (f.tipo == "" || c.tipo == f.tipo)
    && (f.estado == "" || c.estado == f.estado)
  }

  function FilterCultivos(v: Paging.ListView<CultivoRow>, f: CultivoFilters): (r: Paging.ListView<CultivoRow>)
    ensures r.page == 1 && r.all == v.all && r.pageSize == v.pageSize
    ensures IsSubsequence(r.filtered, v.all)
    ensures forall x :: x in r.filtered <==> x in v.all && CultivoMatches(f, x)
  {
    FilterSpec(v.all, c => CultivoMatches(f, c));
    Paging.SetFiltered(v, Filter(v.all, c => CultivoMatches(f, c)))
  }

  // ---------------------------------------------------------------------
  // Insumos (no pagination: every match is rendered)

  /** An insumo row; `id` is the stringified `id_insumo`. */
  datatype InsumoRow = InsumoRow(id: string, nombre: string, tipo: string, estado: string)
  datatype InsumoFilters = InsumoFilters(search: string, tipo: string, estado: string)

  /** The tipo filter ignores case; the estado filter does not. */
  predicate InsumoMatches(f: InsumoFilters, x: InsumoRow) {
    (f.search == "" || Hit(x.nombre, f.search) || Hit(x.id, f.search))
    && (f.tipo == "" || Text.Lower(x.tipo) == Text.Lower(f.tipo))
    && (f.estado == "" || x.estado == f.estado)
  }

  function FilterInsumos(rows: seq<InsumoRow>, f: InsumoFilters): (r: seq<InsumoRow>)
    ensures IsSubsequence(r, rows)
    ensures forall x :: x in r <==> x in rows && InsumoMatches(f, x)
  {
    FilterSpec(rows, x => InsumoMatches(f, x));
    Filter(rows, x => InsumoMatches(f, x))
  }

  /** The tipo filter matches a row whatever the case of either side. */
  lemma InsumoTipoIgnoresCase(f: InsumoFilters, x: InsumoRow)
    requires f.search == "" && f.estado == ""
    ensures InsumoMatches(f, x) <==> f.tipo == "" || Text.Lower(x.tipo) == Text.Lower(f.tipo)
    ensures InsumoMatches(f, x) ==> InsumoMatches(f.(tipo := Text.Lower(f.tipo)), x)
  {
    if f.tipo != "" && InsumoMatches(f, x) {
      Text.LowerIdempotent(f.tipo);
    }
  }

  // ---------------------------------------------------------------------
  // Toggle requests

  /** What a toggle button asks the server to do. */
  datatype Request =
    | SetStatus(id: string, estado: string)
    | Update(id: string, body: Js.Body)
    | Patch(id: string, body: Js.Body)

  /** A body whose only key is `estado`. */
  function EstadoBody(estado: string): (b: Js.Body)
    ensures b.Keys == {"estado"} && b["estado"] == Js.Str(estado)
  {
    map["estado" := Js.Str(estado)]
  }

  /** `toggleProduccionStatus`: the flipped value of the estado fetched
      from the server goes to the status endpoint. */
  function ToggleProduccion(id: string, fetchedEstado: string): (r: Request)
    ensures r.SetStatus? && r.id == id && r.estado == Flip(fetchedEstado)
  {
    SetStatus(id, Flip(fetchedEstado))
  }

  /** `toggleSensorState`: the fetched record goes back with `estado`
      replaced by the flip of the row's current value; a failed fetch sends
      nothing. */
  function ToggleSensor(id: string, current: string, fetched: Option<Js.Body>): (r: Option<Request>)
    ensures r.Some? <==> fetched.Some?
    ensures r.Some? ==> r.value.Update? && r.value.id == id
    ensures r.Some? ==> r.value.body.Keys == fetched.value.Keys + {"estado"}
    ensures r.Some? ==> r.value.body["estado"] == Js.Str(Flip(current))
    ensures r.Some? ==> forall k :: k in fetched.value && k != "estado" ==> r.value.body[k] == fetched.value[k]
  {
    match fetched
    case None => None
    case Some(record) => Some(Update(id, record["estado" := Js.Str(Flip(current))]))
  }

  /** `toggleCiclo`: an update whose body holds only the flipped estado. */
  function ToggleCiclo(id: string, current: string): (r: Request)
    ensures r.Update? && r.id == id && r.body == EstadoBody(Flip(current))
  {
    Update(id, EstadoBody(Flip(current)))
  }

  /** `toggleCultivoState`: the flipped state goes to the status endpoint,
      only once the user confirms. */
  function ToggleCultivo(id: string, current: string, confirmed: bool): (r: Option<Request>)
    ensures r.Some? <==> confirmed
    ensures r.Some? ==> r.value == SetStatus(id, Flip(current))
  {
    if confirmed then Some(SetStatus(id, Flip(current))) else None
  }

  /** `toggleInsumoState`: after confirmation, a patch of `estado` alone. */
  function ToggleInsumo(id: string, current: string, confirmed: bool): (r: Option<Request>)
    ensures r.Some? <==> confirmed
    ensures r.Some? ==> r.value == Patch(id, EstadoBody(Flip(current)))
  {
    if confirmed then Some(Patch(id, EstadoBody(Flip(current)))) else None
  }

  /** Toggling twice from a valid state asks for the state the row started
      in, whichever list the toggle comes from. */
  lemma ToggleTwiceRestores(id: string, current: string)
    requires IsStatus(current)
    ensures ToggleCiclo(id, ToggleCiclo(id, current).body["estado"].s) == Update(id, EstadoBody(current))
    ensures ToggleProduccion(id, ToggleProduccion(id, current).estado).estado == current
  {
    FlipTwice(current);
  }
}
