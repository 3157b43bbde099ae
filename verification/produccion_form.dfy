/** The production form: the sensor selection (at most three, no repeated
    id), the insumo selection (no repeated id, no cap), the investment
    figures derived from it, the submit-button gate and the submit-time
    validation that builds the request payload. */
module ProduccionForm {
  import opened Wrappers
  import Text
  import Numbers
  import Dates
  import opened Seqs

  /** A selected sensor or insumo: its id and the label shown. */
  datatype Pick = Pick(id: string, name: string)

  /** The form's text inputs. `inversion` and `meta` hold the number each
      numeric input currently parses to (`None` when it holds no number). */
  datatype Fields = Fields(
    nombre: string,
    responsable: string,
    cultivo: string,
    ciclo: string,
    fechaInicio: string,
    fechaFin: string,
    inversion: Option<real>,
    meta: Option<real>)

  datatype Draft = Draft(fields: Fields, sensors: seq<Pick>, supplies: seq<Pick>)

  const MaxSensors: nat := 3
  const CostPerSupply: real := 100.0
  const MetaFactor: real := 1.5

  predicate HasId(sel: seq<Pick>, id: string) {
    exists i :: 0 <= i < |sel| && sel[i].id == id
  }

  predicate DistinctIds(sel: seq<Pick>) {
    forall i, j :: 0 <= i < j < |sel| ==> sel[i].id != sel[j].id
  }

  /** What a selection attempt did; the two refusals leave the list as is. */
  datatype AddOutcome = Added | LimitReached | AlreadySelected

  /** `addSensor(id, name)`: refused when three sensors are selected, then
      when the id is already selected; otherwise appended at the end. */
  function AddSensor(sel: seq<Pick>, id: string, name: string): (r: (seq<Pick>, AddOutcome))
    ensures r.1 != Added ==> r.0 == sel
    ensures r.1 == LimitReached <==> |sel| >= MaxSensors
    ensures r.1 == AlreadySelected <==> |sel| < MaxSensors && HasId(sel, id)
    ensures r.1 == Added ==> r.0 == sel + [Pick(id, name)]
  {
    if |sel| >= MaxSensors then (sel, LimitReached)
    else if HasId(sel, id) then (sel, AlreadySelected)
    else (sel + [Pick(id, name)], Added)
  }

  function WithoutId(sel: seq<Pick>, id: string): (r: seq<Pick>)
    ensures !HasId(r, id)
    ensures forall i :: 0 <= i < |r| ==> r[i] in sel
  {
    var r := Filter(sel, (p: Pick) => p.id != id);
    forall i | 0 <= i < |r| ensures r[i] in sel {
      FilterMembership(sel, (p: Pick) => p.id != id, r[i]);
    }
    r
  }

  /** `removeSensor(id)`: the entries with that id go, the rest keep their
      order. */
  function RemoveSensor(sel: seq<Pick>, id: string): (r: seq<Pick>)
    ensures !HasId(r, id)
    ensures IsSubsequence(r, sel)
    ensures forall p :: p in sel && p.id != id ==> p in r
  {
    var r := WithoutId(sel, id);
    FilterIsSubsequence(sel, (p: Pick) => p.id != id);
    forall p | p in sel && p.id != id ensures p in r {
      FilterMembership(sel, (p: Pick) => p.id != id, p);
    }
    r
  }

  /** The invariant of the sensor list. */
  predicate SensorsOk(sel: seq<Pick>) {
    |sel| <= MaxSensors && DistinctIds(sel)
  }

  lemma AddSensorKeeps(sel: seq<Pick>, id: string, name: string)
    requires SensorsOk(sel)
    ensures SensorsOk(AddSensor(sel, id, name).0)
  {
  }

  /** A subsequence of an id-distinct list is id-distinct and no longer. */
  lemma {:induction false} SubsequenceDistinct(a: seq<Pick>, b: seq<Pick>)
    requires IsSubsequence(a, b) && DistinctIds(b)
    ensures DistinctIds(a) && |a| <= |b|
    decreases |b|
  {
    if a != [] {
      assert b != [];
      if a[0] == b[0] {
        SubsequenceDistinct(a[1..], b[1..]);
        forall j | 0 < j < |a| ensures a[0].id != a[j].id {
          assert a[j] == a[1..][j - 1];
          SubsequenceMember(a[1..], b[1..], j - 1);
          var k :| 0 <= k < |b[1..]| && b[1..][k] == a[j];
          assert b[k + 1] == a[j];
        }
      } else {
        SubsequenceDistinct(a, b[1..]);
      }
    }
  }

  lemma {:induction false} SubsequenceMember(a: seq<Pick>, b: seq<Pick>, i: nat)
    requires IsSubsequence(a, b) && i < |a|
    ensures exists k :: 0 <= k < |b| && b[k] == a[i]
    decreases |b|
  {
    assert b != [];
    if a[0] == b[0] {
      if i > 0 {
        SubsequenceMember(a[1..], b[1..], i - 1);
        var k :| 0 <= k < |b[1..]| && b[1..][k] == a[1..][i - 1];
        assert b[k + 1] == a[i];
      } else {
        assert b[0] == a[i];
      }
    } else {
      SubsequenceMember(a, b[1..], i);
      var k :| 0 <= k < |b[1..]| && b[1..][k] == a[i];
      assert b[k + 1] == a[i];
    }
  }

  lemma RemoveSensorKeeps(sel: seq<Pick>, id: string)
    requires SensorsOk(sel)
    ensures SensorsOk(RemoveSensor(sel, id))
  {
    SubsequenceDistinct(RemoveSensor(sel, id), sel);
  }

  /** A user action on the sensor selector. */
  datatype SensorOp = AddOp(id: string, name: string) | RemoveOp(id: string)

  function ApplySensorOps(sel: seq<Pick>, ops: seq<SensorOp>): seq<Pick>
    decreases |ops|
  {
    if ops == [] then sel
    else
      var next := match ops[0]
        case AddOp(id, name) => AddSensor(sel, id, name).0
        case RemoveOp(id) => RemoveSensor(sel, id);
      ApplySensorOps(next, ops[1..])
  }

  /** Starting from an empty selection, no sequence of additions and
      removals ever holds more than three sensors or one id twice. */
  lemma {:induction false} SensorOpsKeepInvariant(sel: seq<Pick>, ops: seq<SensorOp>)
    requires SensorsOk(sel)
    ensures SensorsOk(ApplySensorOps(sel, ops))
    decreases |ops|
  {
    if ops != [] {
      var next := match ops[0]
        case AddOp(id, name) => AddSensor(sel, id, name).0
        case RemoveOp(id) => RemoveSensor(sel, id);
      if ops[0].AddOp? {
        AddSensorKeeps(sel, ops[0].id, ops[0].name);
      } else {
        RemoveSensorKeeps(sel, ops[0].id);
      }
      SensorOpsKeepInvariant(next, ops[1..]);
    }
  }

  lemma FromEmptySensorsOk(ops: seq<SensorOp>)
    ensures SensorsOk(ApplySensorOps([], ops))
  {
    SensorOpsKeepInvariant([], ops);
  }

  /** `calculateInversion()`: what it writes into the inversion and meta
      inputs for a given insumo selection. */
  function Inversion(supplies: seq<Pick>): (r: (real, real))
    ensures r.0 == CostPerSupply * |supplies| as real
    ensures r.1 == MetaFactor * r.0
  {
    var total := SumOf(supplies, (p: Pick) => CostPerSupply);
    SumOfConst(supplies, (p: Pick) => CostPerSupply, CostPerSupply);
    (total, total * MetaFactor)
  }

  function Recalculate(d: Draft): (r: Draft)
    ensures r.sensors == d.sensors && r.supplies == d.supplies
  {
    var (inv, meta) := Inversion(d.supplies);
    d.(fields := d.fields.(inversion := Some(inv), meta := Some(meta)))
  }

  /** `addInsumo(id, name)`: refused only when the id is already selected;
      otherwise appended and the investment figures recomputed. */
  function AddInsumo(d: Draft, id: string, name: string): (r: (Draft, AddOutcome))
    ensures r.1 != LimitReached
    ensures r.1 == AlreadySelected <==> HasId(d.supplies, id)
    ensures r.1 == AlreadySelected ==> r.0 == d
    ensures r.1 == Added ==>
      (r.0.supplies == d.supplies + [Pick(id, name)]
       && r.0.sensors == d.sensors
       && r.0.fields == d.fields.(inversion := Some(CostPerSupply * (|d.supplies| + 1) as real),
                                  meta := Some(MetaFactor * (CostPerSupply * (|d.supplies| + 1) as real))))
  {
    if HasId(d.supplies, id) then (d, AlreadySelected)
    else (Recalculate(d.(supplies := d.supplies + [Pick(id, name)])), Added)
  }

  /** `removeInsumo(id)`: drops the entries with that id, keeps the rest in
      order, and recomputes the investment figures. */
  function RemoveInsumo(d: Draft, id: string): (r: Draft)
    ensures !HasId(r.supplies, id)
    ensures IsSubsequence(r.supplies, d.supplies)
    ensures forall p :: p in d.supplies && p.id != id ==> p in r.supplies
    ensures r.sensors == d.sensors
    ensures r.fields == d.fields.(inversion := Some(CostPerSupply * |r.supplies| as real),
                                  meta := Some(MetaFactor * (CostPerSupply * |r.supplies| as real)))
  {
    Recalculate(d.(supplies := RemoveSensor(d.supplies, id)))
  }

  lemma {:induction false} FilterOneOut(sel: seq<Pick>, id: string)
    requires DistinctIds(sel) && HasId(sel, id)
    ensures |WithoutId(sel, id)| == |sel| - 1
    decreases |sel|
  {
    if sel[0].id == id {
      assert !HasId(sel[1..], id) by {
        forall k | 0 <= k < |sel[1..]| ensures sel[1..][k].id != id {
          assert sel[1..][k] == sel[k + 1];
        }
      }
      NoIdFilter(sel[1..], id);
    } else {
      assert HasId(sel[1..], id) by {
        var k :| 0 <= k < |sel| && sel[k].id == id;
        assert sel[1..][k - 1].id == id;
      }
      FilterOneOut(sel[1..], id);
    }
  }

  lemma NoIdFilter(sel: seq<Pick>, id: string)
    requires !HasId(sel, id)
    ensures WithoutId(sel, id) == sel
  {
    FilterAll(sel, (p: Pick) => p.id != id);
  }

  /** Adding a new insumo raises the investment by exactly 100, and removing
      a selected one lowers it by exactly 100. */
  lemma InversionSteps(d: Draft, id: string, name: string)
    requires DistinctIds(d.supplies)
    ensures !HasId(d.supplies, id) ==>
      AddInsumo(d, id, name).0.fields.inversion == Some(Inversion(d.supplies).0 + CostPerSupply)
    ensures HasId(d.supplies, id) ==>
      RemoveInsumo(d, id).fields.inversion == Some(Inversion(d.supplies).0 - CostPerSupply)
  {
    if HasId(d.supplies, id) {
      FilterOneOut(d.supplies, id);
    }
  }

  /** `validateForm()`: the submit button is enabled when the four required
      inputs are not blank, at least one sensor and one insumo are chosen,
      and the end date is empty or not before the start date. An empty or
      unreadable start date makes any comparison false. */
  function SubmitEnabled(d: Draft): (ok: bool)
    ensures ok ==> |d.sensors| > 0 && |d.supplies| > 0
    ensures ok ==> Text.Trim(d.fields.nombre) != [] && Text.Trim(d.fields.responsable) != []
    ensures ok ==> Text.Trim(d.fields.cultivo) != [] && Text.Trim(d.fields.ciclo) != []
    ensures ok ==> DatesOrdered(d.fields)
  {
    var f := d.fields;
    var hasRequired := Text.Trim(f.nombre) != [] && Text.Trim(f.responsable) != []
      && Text.Trim(f.cultivo) != [] && Text.Trim(f.ciclo) != [];
    hasRequired && |d.sensors| > 0 && |d.supplies| > 0 && DatesOrdered(f)
  }

  /** No end date, or a start date not after the end date. */
  predicate DatesOrdered(f: Fields) {
    f.fechaFin == ""
    || (var start := Dates.ParseIso(f.fechaInicio);
        var end := Dates.ParseIso(f.fechaFin);
        start.Some? && end.Some? && Dates.LessEq(start.value, end.value))
  }

  /** The gate is exactly the conjunction of its conditions. */
  lemma SubmitEnabledIff(d: Draft)
    ensures SubmitEnabled(d) <==>
      Text.Trim(d.fields.nombre) != [] && Text.Trim(d.fields.responsable) != []
      && Text.Trim(d.fields.cultivo) != [] && Text.Trim(d.fields.ciclo) != []
      && |d.sensors| > 0 && |d.supplies| > 0 && DatesOrdered(d.fields)
  {
  }

  /** The checks `getFormData` makes, in the order it makes them. */
  datatype FormError =
    | NombreTooShort
    | ResponsableMissing
    | ResponsableNotNumber
    | CultivoMissing
    | CicloMissing
    | FechaInicioMissing
    | NoSensors
    | NoSupplies

  /** The message each failed check adds. */
  function Message(e: FormError): string {
    match e
    case NombreTooShort => "El nombre debe tener al menos 3 caracteres"
    case ResponsableMissing => "Debe seleccionar un responsable"
    case ResponsableNotNumber => "ID de responsable inválido"
    case CultivoMissing => "Debe seleccionar un cultivo"
    case CicloMissing => "Debe seleccionar un ciclo"
    case FechaInicioMissing => "La fecha de inicio es obligatoria"
    case NoSensors => "Debe seleccionar al menos un sensor"
    case NoSupplies => "Debe seleccionar al menos un insumo"
  }

  /** The request body for creating or updating a production. */
  datatype Payload = Payload(
    nombre: string,
    idResponsable: int,
    idCultivo: string,
    idCicloCultivo: string,
    inversion: real,
    meta: real,
    fechaInicio: string,
    fechaFin: Option<string>,
    estado: string,
    sensores: seq<string>,
    insumos: seq<string>)

  datatype FormResult = Rejected(errors: seq<FormError>) | Accepted(payload: Payload)

  function Ids(sel: seq<Pick>): (r: seq<string>)
    ensures |r| == |sel| && forall i :: 0 <= i < |sel| ==> r[i] == sel[i].id
  {
    if sel == [] then [] else [sel[0].id] + Ids(sel[1..])
  }

  /** Every check `getFormData` makes, in order. */
  const AllChecks: seq<FormError> := [
    NombreTooShort, ResponsableMissing, ResponsableNotNumber, CultivoMissing,
    CicloMissing, FechaInicioMissing, NoSensors, NoSupplies]

  /** When each check fails. A blank `responsable` fails both of its checks. */
  predicate Fails(d: Draft, e: FormError) {
    var f := d.fields;
    match e
    case NombreTooShort => |Text.Trim(f.nombre)| < 3
    case ResponsableMissing => f.responsable == []
    case ResponsableNotNumber => Numbers.ParseInt(f.responsable).None?
    case CultivoMissing => f.cultivo == []
    case CicloMissing => f.ciclo == []
    case FechaInicioMissing => f.fechaInicio == []
    case NoSensors => |d.sensors| == 0
    case NoSupplies => |d.supplies| == 0
  }

  /** The failing checks, in the order they are made. */
  function Failures(d: Draft): seq<FormError> {
    Filter(AllChecks, e => Fails(d, e))
  }

  /** The errors come in check order. */
  lemma FailuresInOrder(d: Draft)
    ensures IsSubsequence(Failures(d), AllChecks)
  {
    FilterIsSubsequence(AllChecks, e => Fails(d, e));
  }

  /** A check is reported exactly when it fails. */
  lemma FailuresMember(d: Draft, e: FormError)
    ensures e in Failures(d) <==> Fails(d, e)
  {
    FilterMembership(AllChecks, e => Fails(d, e), e);
    AllChecksComplete(e);
  }

  lemma AllChecksComplete(e: FormError)
    ensures e in AllChecks
  {
    match e
    case NombreTooShort => assert AllChecks[0] == e;
    case ResponsableMissing => assert AllChecks[1] == e;
    case ResponsableNotNumber => assert AllChecks[2] == e;
    case CultivoMissing => assert AllChecks[3] == e;
    case CicloMissing => assert AllChecks[4] == e;
    case FechaInicioMissing => assert AllChecks[5] == e;
    case NoSensors => assert AllChecks[6] == e;
    case NoSupplies => assert AllChecks[7] == e;
  }

  /** No check fails. */
  ghost predicate AllPass(d: Draft) {
    forall e :: !Fails(d, e)
  }

  /** Nothing is reported exactly when every check passes. */
  lemma FailuresEmptyIff(d: Draft)
    ensures Failures(d) == [] <==> AllPass(d)
  {
    if Failures(d) == [] {
      forall e ensures !Fails(d, e) {
        FailuresMember(d, e);
      }
    } else {
      FailuresMember(d, Failures(d)[0]);
    }
  }

  /** The payload `getFormData` builds once every check has passed:
      estado is `activo` and an empty end date is sent as `null`. */
  function BuildPayload(f: Fields, idResponsable: int, sensors: seq<Pick>, supplies: seq<Pick>): (p: Payload)
    ensures p.estado == "activo" && p.idResponsable == idResponsable
    ensures p.nombre == Text.Trim(f.nombre)
    ensures p.idCultivo == f.cultivo && p.idCicloCultivo == f.ciclo && p.fechaInicio == f.fechaInicio
    ensures p.fechaFin.None? <==> f.fechaFin == []
    ensures p.fechaFin.Some? ==> p.fechaFin.value == f.fechaFin
    ensures p.sensores == Ids(sensors) && p.insumos == Ids(supplies)
    ensures p.inversion == Numbers.OrZero(f.inversion) && p.meta == Numbers.OrZero(f.meta)
  {
    Payload(
      Text.Trim(f.nombre), idResponsable, f.cultivo, f.ciclo,
      Numbers.OrZero(f.inversion), Numbers.OrZero(f.meta),
      f.fechaInicio, if f.fechaFin == [] then None else Some(f.fechaFin),
      "activo", Ids(sensors), Ids(supplies))
  }

  /** `getFormData()`: every check runs and every failing one is reported,
      in check order; only when none fails is the payload built. */
  function GetFormData(d: Draft): (r: FormResult)
    ensures r.Accepted? <==> AllPass(d)
    ensures r.Rejected? ==> r.errors == Failures(d)
    ensures r.Accepted? ==>
      Numbers.ParseInt(d.fields.responsable).Some?
      && r.payload == BuildPayload(d.fields, Numbers.ParseInt(d.fields.responsable).value, d.sensors, d.supplies)
  {
    FailuresEmptyIff(d);
    if Failures(d) != [] then Rejected(Failures(d))
    else
      ResponsableRead(d);
      Accepted(BuildPayload(d.fields, Numbers.ParseInt(d.fields.responsable).value, d.sensors, d.supplies))
  }

  /** An accepted payload carries what the checks demanded: a name of at
      least three characters, the parsed responsable, a cultivo, a ciclo,
      a start date, and at least one sensor and one insumo id. */
  lemma AcceptedPayload(d: Draft)
    requires GetFormData(d).Accepted?
    ensures var p := GetFormData(d).payload;
      |p.nombre| >= 3 && Some(p.idResponsable) == Numbers.ParseInt(d.fields.responsable)
      && p.idCultivo != [] && p.idCicloCultivo != [] && p.fechaInicio != []
      && |p.sensores| == |d.sensors| > 0 && |p.insumos| == |d.supplies| > 0
  {
    var n := Numbers.ParseInt(d.fields.responsable);
    var p := GetFormData(d).payload;
    assert n.Some? && p == BuildPayload(d.fields, n.value, d.sensors, d.supplies);
    PassedChecks(d);
  }

  /** What the passed checks say about the fields. */
  lemma PassedChecks(d: Draft)
    requires AllPass(d)
    ensures |Text.Trim(d.fields.nombre)| >= 3
    ensures d.fields.cultivo != [] && d.fields.ciclo != [] && d.fields.fechaInicio != []
    ensures |d.sensors| > 0 && |d.supplies| > 0
  {
    assert !Fails(d, NombreTooShort) && !Fails(d, CultivoMissing) && !Fails(d, CicloMissing);
    assert !Fails(d, FechaInicioMissing) && !Fails(d, NoSensors) && !Fails(d, NoSupplies);
  }

  /** With nothing reported, `parseInt` reads the responsable. */
  lemma ResponsableRead(d: Draft)
    requires Failures(d) == []
    ensures Numbers.ParseInt(d.fields.responsable).Some?
  {
    FailuresMember(d, ResponsableNotNumber);
  }

  /** The form is accepted exactly when no check fails; otherwise the
      errors are not empty and name every failing check and nothing else. */
  lemma GetFormDataComplete(d: Draft)
    ensures GetFormData(d).Accepted? <==> forall e :: !Fails(d, e)
    ensures GetFormData(d).Rejected? ==>
      GetFormData(d).errors != [] && forall e :: e in GetFormData(d).errors <==> Fails(d, e)
  {
    FailuresEmptyIff(d);
    forall e ensures e in Failures(d) <==> Fails(d, e) {
      FailuresMember(d, e);
    }
  }

  /** The gate and the submit check differ: a name that trims to one or
      two characters opens the submit button but is rejected on submit. */
  lemma GateWeakerThanSubmit(d: Draft)
    requires SubmitEnabled(d) && |Text.Trim(d.fields.nombre)| < 3
    ensures GetFormData(d).Rejected? && NombreTooShort in GetFormData(d).errors
  {
    FailuresMember(d, NombreTooShort);
  }

  /** In the other direction, a form `getFormData` accepts (every check
      passes) opens the gate once the cultivo and ciclo are not blank and
      the dates are ordered. */
  lemma AcceptedOpensGate(d: Draft)
    requires AllPass(d)
    requires Text.Trim(d.fields.cultivo) != [] && Text.Trim(d.fields.ciclo) != []
    requires DatesOrdered(d.fields)
    ensures SubmitEnabled(d)
  {
    assert !Fails(d, NombreTooShort) && !Fails(d, ResponsableNotNumber);
    assert !Fails(d, NoSensors) && !Fails(d, NoSupplies);
    NombreFilled(d);
    ResponsableFilled(d);
    SelectionsFilled(d);
    SubmitEnabledIff(d);
  }

  /** Selections that pass their checks are not empty. */
  lemma SelectionsFilled(d: Draft)
    requires !Fails(d, NoSensors) && !Fails(d, NoSupplies)
    ensures |d.sensors| > 0 && |d.supplies| > 0
  {
  }

  /** A name that passes its check is not blank. */
  lemma NombreFilled(d: Draft)
    requires !Fails(d, NombreTooShort)
    ensures Text.Trim(d.fields.nombre) != []
  {
  }

  /** A responsable that `parseInt` reads is not blank. */
  lemma ResponsableFilled(d: Draft)
    requires !Fails(d, ResponsableNotNumber)
    ensures Text.Trim(d.fields.responsable) != []
  {
    Numbers.ParseIntNotBlank(d.fields.responsable);
  }
}
