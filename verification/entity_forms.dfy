/** The cycle, cultivo and insumo create/edit forms and the matching modal
    dialogs: the payload each builds, the check it runs before sending,
    the id it assigns, and the request it sends. */
module EntityForms {
  import opened Wrappers
  import Text
  import Numbers
  import Dates
  import Ids
  import Status

  /** `checked ? 'activo' : 'inactivo'`. */
  function EstadoOf(checked: bool): (e: string)
    ensures Status.IsStatus(e)
    ensures e == Status.Activo <==> checked
  {
    if checked then Status.Activo else Status.Inactivo
  }

  /** The request a save sends: none, a create, or an update of the record
      the form was opened for. */
  datatype Save<T> = NotSent | Create(payload: T) | Update(id: string, payload: T)

  /** `new Date(a) > new Date(b)`: false when either is an invalid date. */
  predicate After(a: string, b: string) {
    var da, db := Dates.ParseDateTime(a), Dates.ParseDateTime(b);
    da.Some? && db.Some? && Dates.LessEq(db.value, da.value) && da.value != db.value
  }

  // ---------------------------------------------------------------------
  // Cycle form

  /** The raw values of the cycle form's inputs. */
  datatype CicloInputs = CicloInputs(
    nombre: string, cultivo: string, fechaInicio: string, fechaFin: string,
    descripcion: string, estadoChecked: bool)

  datatype CicloPayload = CicloPayload(
    nombre: string, idCultivo: string, idCiclo: string, fechaInicial: string,
    fechaFinal: string, descripcion: string, novedades: string, estado: string)

  /** The cycle payload: `nombre` and `descripcion` trimmed, the other
      inputs as typed, `novedades` empty, `estado` from the checkbox. */
  function CicloPayloadOf(inputs: CicloInputs, id: string): (p: CicloPayload)
    ensures p.idCiclo == id && p.novedades == ""
    ensures p.nombre == Text.Trim(inputs.nombre) && p.descripcion == Text.Trim(inputs.descripcion)
    ensures p.idCultivo == inputs.cultivo && p.fechaInicial == inputs.fechaInicio && p.fechaFinal == inputs.fechaFin
    ensures Status.IsStatus(p.estado) && (p.estado == Status.Activo <==> inputs.estadoChecked)
  {
    CicloPayload(Text.Trim(inputs.nombre), inputs.cultivo, id, inputs.fechaInicio, inputs.fechaFin,
                 Text.Trim(inputs.descripcion), "", EstadoOf(inputs.estadoChecked))
  }

  datatype CicloVerdict = CicloOk | CicloMissingField | StartAfterEnd

  /** The cycle form's `validateForm`: the four required fields first, then
      the date order; equal dates pass. */
  function CheckCiclo(p: CicloPayload): (v: CicloVerdict)
    ensures v == CicloMissingField <==>
      p.nombre == "" || p.idCultivo == "" || p.fechaInicial == "" || p.fechaFinal == ""
    ensures v == CicloOk <==>
      p.nombre != "" && p.idCultivo != "" && p.fechaInicial != "" && p.fechaFinal != ""
      && !After(p.fechaInicial, p.fechaFinal)
  {
    if p.nombre == "" || p.idCultivo == "" || p.fechaInicial == "" || p.fechaFinal == "" then CicloMissingField
    else if After(p.fechaInicial, p.fechaFinal) then StartAfterEnd
    else CicloOk
  }

  /** A cycle that starts and ends on the same day is accepted. */
  lemma SameDayCicloAccepted(p: CicloPayload)
    requires p.nombre != "" && p.idCultivo != "" && p.fechaInicial != ""
    requires p.fechaFinal == p.fechaInicial
    ensures CheckCiclo(p) == CicloOk
  {
  }

  /** A name of white space only is rejected, since the payload holds the
      trimmed name. */
  lemma BlankCicloNameRejected(inputs: CicloInputs, id: string)
    requires Text.AllSpace(inputs.nombre)
    ensures CheckCiclo(CicloPayloadOf(inputs, id)) == CicloMissingField
  {
    Text.TrimEmptyIff(inputs.nombre);
  }

  /** The cycle form's submit: the id is the edited cycle's, or `CICL-`
      with the next number after the last listed cycle; an invalid payload
      sends nothing. */
  function SubmitCiclo(inputs: CicloInputs, editing: Option<string>, ids: seq<Option<string>>): (s: Save<CicloPayload>)
    ensures s.NotSent? <==> CheckCiclo(CicloPayloadOf(inputs, Ids.FormId(editing, ids, Ids.CicloPrefix))) != CicloOk
    ensures s.Update? <==> !s.NotSent? && editing.Some?
    ensures s.Update? ==> s.id == editing.value && s.payload.idCiclo == editing.value
    ensures s.Create? ==> s.payload.idCiclo == Ids.CicloPrefix + Ids.NextSuffix(ids, Ids.CicloPrefix)
    ensures !s.NotSent? ==> s.payload == CicloPayloadOf(inputs, Ids.FormId(editing, ids, Ids.CicloPrefix))
  {
    var p := CicloPayloadOf(inputs, Ids.FormId(editing, ids, Ids.CicloPrefix));
    if CheckCiclo(p) != CicloOk then NotSent
    else if editing.Some? then Update(editing.value, p)
    else Create(p)
  }

  // ---------------------------------------------------------------------
  // Cultivo form

  datatype CultivoInputs = CultivoInputs(
    nombre: string, tipo: string, tamano: string, ubicacion: string,
    fechaSiembra: string, descripcion: string, estadoChecked: bool)

  datatype CultivoPayload = CultivoPayload(
    nombre: string, tipo: string, idCultivo: string, tamano: string, ubicacion: string,
    fechaSiembra: string, descripcion: string, estado: string)

  /** The cultivo payload: the free-text inputs trimmed, `tipo` and
      `fecha_siembra` as chosen, `estado` from the checkbox. */
  function CultivoPayloadOf(inputs: CultivoInputs, id: string): (p: CultivoPayload)
    ensures p.idCultivo == id
    ensures p.nombre == Text.Trim(inputs.nombre) && p.tamano == Text.Trim(inputs.tamano)
    ensures p.ubicacion == Text.Trim(inputs.ubicacion) && p.descripcion == Text.Trim(inputs.descripcion)
    ensures p.tipo == inputs.tipo && p.fechaSiembra == inputs.fechaSiembra
    ensures Status.IsStatus(p.estado) && (p.estado == Status.Activo <==> inputs.estadoChecked)
  {
    CultivoPayload(Text.Trim(inputs.nombre), inputs.tipo, id, Text.Trim(inputs.tamano),
                   Text.Trim(inputs.ubicacion), inputs.fechaSiembra, Text.Trim(inputs.descripcion),
                   EstadoOf(inputs.estadoChecked))
  }

  datatype CultivoVerdict = CultivoOk | CultivoMissingField | NoTipoSelected

  /** The cultivo form's `validateForm` as written: the five required
      fields, then a separate empty-`tipo` check, which the first check has
      already covered and so never decides. */
  function CheckCultivo(p: CultivoPayload): (v: CultivoVerdict)
    ensures v != NoTipoSelected
    ensures v == CultivoOk <==>
      p.nombre != "" && p.tipo != "" && p.tamano != "" && p.ubicacion != "" && p.fechaSiembra != ""
  {
    if p.nombre == "" || p.tipo == "" || p.tamano == "" || p.ubicacion == "" || p.fechaSiembra == "" then
      CultivoMissingField
    else if p.tipo == "" then NoTipoSelected
    else CultivoOk
  }

  /** The cultivo form's submit, as for cycles with the `CULT-` prefix. */
  function SubmitCultivo(inputs: CultivoInputs, editing: Option<string>, ids: seq<Option<string>>): (s: Save<CultivoPayload>)
    ensures s.NotSent? <==> CheckCultivo(CultivoPayloadOf(inputs, Ids.FormId(editing, ids, Ids.CultivoPrefix))) != CultivoOk
    ensures s.Update? <==> !s.NotSent? && editing.Some?
    ensures s.Update? ==> s.id == editing.value && s.payload.idCultivo == editing.value
    ensures s.Create? ==> s.payload.idCultivo == Ids.CultivoPrefix + Ids.NextSuffix(ids, Ids.CultivoPrefix)
    ensures !s.NotSent? ==> s.payload == CultivoPayloadOf(inputs, Ids.FormId(editing, ids, Ids.CultivoPrefix))
  {
    var p := CultivoPayloadOf(inputs, Ids.FormId(editing, ids, Ids.CultivoPrefix));
    if CheckCultivo(p) != CultivoOk then NotSent
    else if editing.Some? then Update(editing.value, p)
    else Create(p)
  }

  // ---------------------------------------------------------------------
  // Insumo form

  datatype InsumoInputs = InsumoInputs(
    idInsumo: string, nombre: string, tipo: string, unidadMedida: string,
    cantidad: string, valorUnitario: string, valorTotal: string,
    descripcion: string, estadoChecked: bool)

  /** Numbers are `parseFloat` results; `None` is `NaN`. */
  datatype InsumoPayload = InsumoPayload(
    idInsumo: string, nombre: string, tipo: string, unidadMedida: string,
    cantidad: Option<real>, valorUnitario: Option<real>, valorTotal: Option<real>,
    descripcion: string, estado: string)

  /** The insumo form's payload: every text input trimmed, the three
      numbers parsed, `estado` from the checkbox. */
  function InsumoPayloadOf(inputs: InsumoInputs): (p: InsumoPayload)
    ensures p.idInsumo == Text.Trim(inputs.idInsumo) && p.nombre == Text.Trim(inputs.nombre)
    ensures p.tipo == Text.Trim(inputs.tipo) && p.unidadMedida == Text.Trim(inputs.unidadMedida)
    ensures p.descripcion == Text.Trim(inputs.descripcion)
    ensures p.cantidad == Numbers.ParseFloat(inputs.cantidad) && p.valorUnitario == Numbers.ParseFloat(inputs.valorUnitario)
    ensures p.valorTotal == Numbers.ParseFloat(inputs.valorTotal)
    ensures Status.IsStatus(p.estado) && (p.estado == Status.Activo <==> inputs.estadoChecked)
  {
    InsumoPayload(Text.Trim(inputs.idInsumo), Text.Trim(inputs.nombre), Text.Trim(inputs.tipo),
                  Text.Trim(inputs.unidadMedida), Numbers.ParseFloat(inputs.cantidad),
                  Numbers.ParseFloat(inputs.valorUnitario), Numbers.ParseFloat(inputs.valorTotal),
                  Text.Trim(inputs.descripcion), EstadoOf(inputs.estadoChecked))
  }

  /** The insumo form's `validateForm`: the four text fields non-empty and
      both amounts numbers. */
  predicate InsumoValid(p: InsumoPayload) {
    p.idInsumo != "" && p.nombre != "" && p.tipo != "" && p.unidadMedida != ""
    && p.cantidad.Some? && p.valorUnitario.Some?
  }

  /** The check never looks at the total, nor at the amounts' signs: a
      payload with any total, and with negative amounts, passes as long as
      the rest does. */
  lemma InsumoCheckIgnoresTotalAndSign(p: InsumoPayload, total: Option<real>, c: real, u: real)
    ensures InsumoValid(p.(valorTotal := total)) == InsumoValid(p)
    ensures InsumoValid(p) ==> InsumoValid(p.(cantidad := Some(c), valorUnitario := Some(u)))
  {
  }

  /** The insumo form's submit: nothing for an invalid payload, otherwise
      an update of the edited insumo or a create. */
  function SubmitInsumo(inputs: InsumoInputs, editing: Option<string>): (s: Save<InsumoPayload>)
    ensures s.NotSent? <==> !InsumoValid(InsumoPayloadOf(inputs))
    ensures s.Update? <==> !s.NotSent? && editing.Some?
    ensures s.Update? ==> s.id == editing.value
    ensures !s.NotSent? ==> s.payload == InsumoPayloadOf(inputs)
  {
    var p := InsumoPayloadOf(inputs);
    if !InsumoValid(p) then NotSent
    else if editing.Some? then Update(editing.value, p)
    else Create(p)
  }

  /** What opening the insumo form starts: loading the stored record, or
      filling the id field with a generated id, or nothing (edit mode
      without a stored id). */
  datatype InsumoInit = LoadRecord(id: string) | GenerateId | NoAction

  function InitInsumoForm(isEditMode: bool, storedId: Option<string>): (a: InsumoInit)
    ensures a.LoadRecord? <==> isEditMode && storedId.Some? && storedId.value != ""
    ensures a.GenerateId? <==> !isEditMode
    ensures a.LoadRecord? ==> a.id == storedId.value
  {
    if isEditMode && storedId.Some? && storedId.value != "" then LoadRecord(storedId.value)
    else if !isEditMode then GenerateId
    else NoAction
  }

  /** `generateNextId`: the id field gets `INS-` and the next number once
      the list arrives (a missing `data` is an empty list); a failed
      request leaves the field as it was. */
  function GeneratedInsumoId(response: Option<Option<seq<Option<string>>>>): (id: Option<string>)
    ensures response.None? <==> id.None?
    ensures response.Some? && (response.value.None? || response.value.value == []) ==> id == Some("INS-001")
    ensures response.Some? && response.value.Some? ==> id == Some(Ids.NewId(response.value.value, Ids.InsumoPrefix))
  {
    match response
    case None => None
    case Some(data) =>
      var ids := if data.Some? then data.value else [];
      assert ids == [] ==> Ids.NewId(ids, Ids.InsumoPrefix) == "INS-001" by {
        if ids == [] {
          assert Ids.LastId(ids).None?;
          assert Ids.NextSuffix(ids, Ids.InsumoPrefix) == "001";
        }
      }
      Some(Ids.NewId(ids, Ids.InsumoPrefix))
  }

  // ---------------------------------------------------------------------
  // Modal dialogs

  /** The cultivo modal's payload: the raw inputs, with `id_cultivo` only
      when creating. */
  datatype CultivoModalPayload = CultivoModalPayload(
    idCultivo: Option<string>, nombre: string, tipo: string, tamano: string, ubicacion: string,
    fechaSiembra: string, descripcion: string, estado: string)

  /** The cultivo modal's save button: nothing unless the browser's own
      constraint check passes (`formValid`); a create carries `CULT-` and
      the next number; an edit updates the shown cultivo and carries no
      id. */
  function SaveCultivoModal(formValid: bool, inputs: CultivoInputs, editing: Option<string>, ids: seq<Option<string>>)
    : (s: Save<CultivoModalPayload>)
    ensures s.NotSent? <==> !formValid
    ensures s.Update? <==> formValid && editing.Some?
    ensures s.Update? ==> s.id == editing.value && s.payload.idCultivo.None?
    ensures s.Create? ==> s.payload.idCultivo == Some(Ids.NewId(ids, Ids.CultivoPrefix))
    ensures !s.NotSent? ==>
      s.payload.nombre == inputs.nombre && s.payload.tipo == inputs.tipo && s.payload.tamano == inputs.tamano
      && s.payload.ubicacion == inputs.ubicacion && s.payload.fechaSiembra == inputs.fechaSiembra
      && s.payload.descripcion == inputs.descripcion
      && Status.IsStatus(s.payload.estado) && (s.payload.estado == Status.Activo <==> inputs.estadoChecked)
  {
    if !formValid then NotSent
    else
      var p := CultivoModalPayload(None, inputs.nombre, inputs.tipo, inputs.tamano, inputs.ubicacion,
                                   inputs.fechaSiembra, inputs.descripcion, EstadoOf(inputs.estadoChecked));
      if editing.Some? then Update(editing.value, p)
      else Create(p.(idCultivo := Some(Ids.NewId(ids, Ids.CultivoPrefix))))
  }

  datatype CicloModalPayload = CicloModalPayload(
    idCiclo: Option<string>, nombre: string, idCultivo: string, fechaInicial: string,
    fechaFinal: string, descripcion: string, estado: string, novedades: string)

  /** The cycle modal's save button, as for cultivos with `CICL-`. */
  function SaveCicloModal(formValid: bool, inputs: CicloInputs, editing: Option<string>, ids: seq<Option<string>>)
    : (s: Save<CicloModalPayload>)
    ensures s.NotSent? <==> !formValid
    ensures s.Update? <==> formValid && editing.Some?
    ensures s.Update? ==> s.id == editing.value && s.payload.idCiclo.None?
    ensures s.Create? ==> s.payload.idCiclo == Some(Ids.NewId(ids, Ids.CicloPrefix))
    ensures !s.NotSent? ==>
      s.payload.novedades == "" && s.payload.nombre == inputs.nombre && s.payload.idCultivo == inputs.cultivo
      && s.payload.fechaInicial == inputs.fechaInicio && s.payload.fechaFinal == inputs.fechaFin
      && s.payload.descripcion == inputs.descripcion
      && Status.IsStatus(s.payload.estado) && (s.payload.estado == Status.Activo <==> inputs.estadoChecked)
  {
    if !formValid then NotSent
    else
      var p := CicloModalPayload(None, inputs.nombre, inputs.cultivo, inputs.fechaInicio, inputs.fechaFin,
                                 inputs.descripcion, EstadoOf(inputs.estadoChecked), "");
      if editing.Some? then Update(editing.value, p)
      else Create(p.(idCiclo := Some(Ids.NewId(ids, Ids.CicloPrefix))))
  }

  /** The insumo modal's save button: the payload always carries an id —
      the shown insumo's when editing, `INS-` and the next number when
      creating; `tipo` is sent untrimmed. */
  function SaveInsumoModal(formValid: bool, inputs: InsumoInputs, editing: Option<string>, ids: seq<Option<string>>)
    : (s: Save<InsumoPayload>)
    ensures s.NotSent? <==> !formValid
    ensures s.Update? <==> formValid && editing.Some?
    ensures s.Update? ==> s.id == editing.value && s.payload.idInsumo == editing.value
    ensures s.Create? ==> s.payload.idInsumo == Ids.NewId(ids, Ids.InsumoPrefix)
    ensures !s.NotSent? ==>
      s.payload.tipo == inputs.tipo && s.payload.nombre == Text.Trim(inputs.nombre)
      && s.payload.unidadMedida == Text.Trim(inputs.unidadMedida) && s.payload.descripcion == Text.Trim(inputs.descripcion)
      && s.payload.cantidad == Numbers.ParseFloat(inputs.cantidad)
      && s.payload.valorUnitario == Numbers.ParseFloat(inputs.valorUnitario)
      && s.payload.valorTotal == Numbers.ParseFloat(inputs.valorTotal)
      && Status.IsStatus(s.payload.estado) && (s.payload.estado == Status.Activo <==> inputs.estadoChecked)
  {
    if !formValid then NotSent
    else
      var id := Ids.FormId(editing, ids, Ids.InsumoPrefix);
      var p := InsumoPayloadOf(inputs).(idInsumo := id, tipo := inputs.tipo);
      if editing.Some? then Update(editing.value, p) else Create(p)
  }

  /** The modal and the full cultivo form send the same values whenever
      the typed text has no surrounding white space: the modal only skips
      the trimming, and a create carries the id the form would assign. */
  lemma CultivoModalMatchesForm(inputs: CultivoInputs, editing: Option<string>, ids: seq<Option<string>>)
    requires Text.Trim(inputs.nombre) == inputs.nombre && Text.Trim(inputs.tamano) == inputs.tamano
    requires Text.Trim(inputs.ubicacion) == inputs.ubicacion && Text.Trim(inputs.descripcion) == inputs.descripcion
    ensures var s := SaveCultivoModal(true, inputs, editing, ids);
      var f := CultivoPayloadOf(inputs, Ids.FormId(editing, ids, Ids.CultivoPrefix));
      s.payload.nombre == f.nombre && s.payload.tipo == f.tipo && s.payload.tamano == f.tamano
      && s.payload.ubicacion == f.ubicacion && s.payload.fechaSiembra == f.fechaSiembra
      && s.payload.descripcion == f.descripcion && s.payload.estado == f.estado
      && (s.Create? ==> s.payload.idCultivo == Some(f.idCultivo))
  {
  }

  /** The same agreement between the cycle modal and the cycle form. */
  lemma CicloModalMatchesForm(inputs: CicloInputs, editing: Option<string>, ids: seq<Option<string>>)
    requires Text.Trim(inputs.nombre) == inputs.nombre && Text.Trim(inputs.descripcion) == inputs.descripcion
    ensures var s := SaveCicloModal(true, inputs, editing, ids);
      var f := CicloPayloadOf(inputs, Ids.FormId(editing, ids, Ids.CicloPrefix));
      s.payload.nombre == f.nombre && s.payload.idCultivo == f.idCultivo && s.payload.fechaInicial == f.fechaInicial
      && s.payload.fechaFinal == f.fechaFinal && s.payload.descripcion == f.descripcion
      && s.payload.estado == f.estado && s.payload.novedades == f.novedades
      && (s.Create? ==> s.payload.idCiclo == Some(f.idCiclo))
  {
  }

  /** The insumo modal sends what the insumo form would send for the same
      inputs with the id field holding the assigned id, as long as the
      chosen `tipo` has no surrounding white space. */
  lemma InsumoModalMatchesForm(inputs: InsumoInputs, editing: Option<string>, ids: seq<Option<string>>)
    requires Text.Trim(inputs.tipo) == inputs.tipo
    ensures SaveInsumoModal(true, inputs, editing, ids).payload
      == InsumoPayloadOf(inputs).(idInsumo := Ids.FormId(editing, ids, Ids.InsumoPrefix))
  {
  }
}
