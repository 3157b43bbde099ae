/** The Mongoose crop-cycle collection of the `backend` service: the schema
    (required paths, the four-value `estado` enum with its default, the
    unique `id_ciclo`), the id generator and the controller around it. A
    collection is the sequence of its documents in insertion order. */
module MongoCiclo {
  import opened Wrappers
  import opened Seqs
  import Js
  import Ids

  /** A stored document: its scalar paths, the insumo entries and the
      assigned sensors. */
  datatype Ciclo = Ciclo(fields: Js.Body, insumos: seq<Js.Body>, sensores: seq<Js.JsValue>)

  function IdOf(c: Ciclo): Js.JsValue {
    Js.Get(c.fields, "id_ciclo")
  }

  // ---------------------------------------------------------------------
  // Schema

  const EstadoValues: seq<string> := ["planificado", "en_progreso", "completado", "cancelado"]
  const EstadoDefault: string := "planificado"

  /** The enum validator: an unset or null value passes, a string passes
      when it is one of the four values. */
  predicate EstadoOk(v: Js.JsValue) {
    v.Undefined? || v.Null? || (v.Str? && v.s in EstadoValues)
  }

  /** The required paths, each flagged when it is a string path (an empty
      string fails `required` only there). */
  const RequiredPaths: seq<(string, bool)> := [
    ("id_ciclo", true), ("id_cultivo", true), ("fecha_inicio", false),
    ("fecha_fin_estimada", false), ("area_cultivada", false), ("rendimiento_estimado", false)
  ]

  predicate MissingValue(v: Js.JsValue, isString: bool) {
    v.Undefined? || v.Null? || (isString && v == Js.Str(""))
  }

  predicate RequiredMissing(fields: Js.Body) {
    exists i :: 0 <= i < |RequiredPaths| && MissingValue(Js.Get(fields, RequiredPaths[i].0), RequiredPaths[i].1)
  }

  /** Document validation: every required path set and `estado` in the enum. */
  predicate Validates(fields: Js.Body) {
    !RequiredMissing(fields) && EstadoOk(Js.Get(fields, "estado"))
  }

  /** The schema's scalar paths; the two arrays are kept apart in `Ciclo`. */
  const SchemaPaths: set<string> := {
    "id_ciclo", "id_cultivo", "fecha_inicio", "fecha_fin_estimada", "fecha_fin_real", "estado",
    "area_cultivada", "rendimiento_estimado", "rendimiento_real", "observaciones"
  }

  /** Strict mode, the schema's default: a path the schema does not declare
      is dropped from a new document and from an update. */
  function Strict(body: Js.Body): (r: Js.Body)
    ensures r.Keys == body.Keys * SchemaPaths
    ensures forall k :: k in SchemaPaths ==> Js.Get(r, k) == Js.Get(body, k)
    ensures forall k :: k !in SchemaPaths ==> Js.Get(r, k) == Js.Undefined
  {
    map k | k in body.Keys * SchemaPaths :: body[k]
  }

  /** Every required path is a schema path. */
  lemma RequiredInSchema(i: nat)
    requires i < |RequiredPaths|
    ensures RequiredPaths[i].0 in SchemaPaths
  {
  }

  /** The schema default: an unset `estado` becomes `planificado`. */
  function WithDefaults(body: Js.Body): (fields: Js.Body)
    ensures Js.Get(body, "estado").Undefined? ==> Js.Get(fields, "estado") == Js.Str(EstadoDefault)
    ensures !Js.Get(body, "estado").Undefined? ==> fields == body
    ensures forall k :: k != "estado" ==> Js.Get(fields, k) == Js.Get(body, k)
  {
    if Js.Get(body, "estado").Undefined? then body["estado" := Js.Str(EstadoDefault)] else body
  }

  predicate IdTaken(docs: seq<Ciclo>, id: Js.JsValue) {
    exists i :: 0 <= i < |docs| && IdOf(docs[i]) == id
  }

  /** No two documents share an `id_ciclo` (the unique index). */
  predicate UniqueIds(docs: seq<Ciclo>) {
    forall i, j :: 0 <= i < j < |docs| ==> IdOf(docs[i]) != IdOf(docs[j])
  }

  /** Every document's `estado` is one the enum accepts. */
  predicate EstadosOk(docs: seq<Ciclo>) {
    forall i :: 0 <= i < |docs| ==> EstadoOk(Js.Get(docs[i].fields, "estado"))
  }

  // ---------------------------------------------------------------------
  // The id generator

  const CicloIdPrefix: string := "CIC-"

  /** The id the hook gives the `count + 1`-th document. */
  function GeneratedId(count: nat): string {
    CicloIdPrefix + Ids.Pad3(count + 1)
  }

  /** The hook: a document whose `id_ciclo` is falsy gets the generated
      id from the number of documents already stored. The path is a string
      path, so the hook sees the value cast to a string, and a cast value is
      falsy exactly when it is unset, null or empty. */
  function AssignId(fields: Js.Body, count: nat): (r: Js.Body)
    ensures !MissingValue(Js.Get(fields, "id_ciclo"), true) ==> r == fields
    ensures MissingValue(Js.Get(fields, "id_ciclo"), true) ==>
      r == fields["id_ciclo" := Js.Str(GeneratedId(count))]
  {
    if !MissingValue(Js.Get(fields, "id_ciclo"), true) then fields
    else fields["id_ciclo" := Js.Str(GeneratedId(count))]
  }

  /** The document `new CicloCultivo(body)` builds: the schema's paths of
      the body, with the `estado` default applied. */
  function NewDocument(body: Js.Body): (fields: Js.Body)
    ensures fields.Keys <= SchemaPaths
    ensures forall k :: k != "estado" ==> Js.Get(fields, k) == Js.Get(Strict(body), k)
  {
    WithDefaults(Strict(body))
  }

  /** The generated id reads back as the count plus one. */
  lemma GeneratedIdNumber(count: nat)
    ensures Ids.IdNumber(GeneratedId(count)) == Some(count + 1)
  {
    assert CicloIdPrefix[..3] == "CIC";
    assert Ids.WellFormedPrefix(CicloIdPrefix);
    Ids.IdNumberOfPadded(CicloIdPrefix, count + 1);
  }

  /** Saving as the schema is written: validation, which requires
      `id_ciclo`, runs before the `save` hook; then the unique index. The
      body's scalar paths come as `body`, its `insumos_utilizados` and
      `sensores_asignados` arrays as `insumos` and `sensores`. */
  function CreateAsWritten(docs: seq<Ciclo>, body: Js.Body, insumos: seq<Js.Body>, sensores: seq<Js.JsValue>)
    : (r: (nat, seq<Ciclo>))
    ensures r.0 == 201 || (r.0 == 400 && r.1 == docs)
    ensures r.0 == 400 <==> !Validates(NewDocument(body)) || IdTaken(docs, Js.Get(body, "id_ciclo"))
    ensures r.0 == 201 ==> r.1 == docs + [Ciclo(NewDocument(body), insumos, sensores)]
    ensures r.0 == 201 ==> IdOf(r.1[|docs|]) == Js.Get(body, "id_ciclo")
  {
    var fields := NewDocument(body);
    if !Validates(fields) then (400, docs)
    else
      assert !MissingValue(Js.Get(fields, RequiredPaths[0].0), RequiredPaths[0].1);
      var hooked := AssignId(fields, |docs|);
      if IdTaken(docs, Js.Get(hooked, "id_ciclo")) then (400, docs)
      else (201, docs + [Ciclo(hooked, insumos, sensores)])
  }

  /** As written, a body without `id_ciclo` is always refused: the
      generator never gets to run. */
  lemma CreateAsWrittenRefusesMissingId(docs: seq<Ciclo>, body: Js.Body, insumos: seq<Js.Body>, sensores: seq<Js.JsValue>)
    requires MissingValue(Js.Get(body, "id_ciclo"), true)
    ensures CreateAsWritten(docs, body, insumos, sensores).0 == 400
  {
    assert Js.Get(NewDocument(body), RequiredPaths[0].0) == Js.Get(body, "id_ciclo");
  }

  /** A concrete document the schema refuses although it carries every
      other required path and the hook was written to fill its id. */
  lemma MissingIdExample()
    ensures CreateAsWritten([], SampleBody(), [], []).0 == 400
  {
    CreateAsWrittenRefusesMissingId([], SampleBody(), [], []);
  }

  function SampleBody(): (b: Js.Body)
    ensures Js.Get(b, "id_ciclo").Undefined?
  {
    map["id_cultivo" := Js.Str("CULT-001"), "fecha_inicio" := Js.Str("2024-01-01"),
        "fecha_fin_estimada" := Js.Str("2024-06-01"), "area_cultivada" := Js.Num(2.0),
        "rendimiento_estimado" := Js.Num(100.0)]
  }

  /** The document validation sees once the defaults are applied and the
      hook has run. */
  function Prepared(docs: seq<Ciclo>, body: Js.Body): Js.Body {
    AssignId(NewDocument(body), |docs|)
  }

  /** Saving with the generator run before validation, as the hook's own
      comment intends: a body without an id gets `CIC-` and the padded
      count plus one; the unique index still refuses a duplicate. */
  function Create(docs: seq<Ciclo>, body: Js.Body, insumos: seq<Js.Body>, sensores: seq<Js.JsValue>)
    : (r: (nat, seq<Ciclo>))
    ensures r.0 == 201 || (r.0 == 400 && r.1 == docs)
    ensures r.0 == 400 <==> !Validates(Prepared(docs, body)) || IdTaken(docs, Js.Get(Prepared(docs, body), "id_ciclo"))
    ensures r.0 == 201 ==> r.1 == docs + [Ciclo(Prepared(docs, body), insumos, sensores)]
    ensures r.0 == 201 ==> !IdTaken(docs, IdOf(r.1[|docs|])) && Validates(r.1[|docs|].fields)
    ensures r.0 == 201 && !MissingValue(Js.Get(body, "id_ciclo"), true) ==> IdOf(r.1[|docs|]) == Js.Get(body, "id_ciclo")
    ensures r.0 == 201 && MissingValue(Js.Get(body, "id_ciclo"), true) ==>
      IdOf(r.1[|docs|]) == Js.Str(GeneratedId(|docs|))
  {
    var fields := Prepared(docs, body);
    if !Validates(fields) then (400, docs)
    else if IdTaken(docs, Js.Get(fields, "id_ciclo")) then (400, docs)
    else (201, docs + [Ciclo(fields, insumos, sensores)])
  }

  /** Only the first required path is `id_ciclo`, and none is `estado`. */
  lemma OtherRequiredPaths(i: nat)
    requires 1 <= i < |RequiredPaths|
    ensures RequiredPaths[i].0 != "id_ciclo" && RequiredPaths[i].0 != "estado"
  {
    var name := RequiredPaths[i].0;
    assert name[0] != 'e' && "estado"[0] == 'e';
    if i == 1 {
      assert name[4] == 'u' && "id_ciclo"[4] == 'i';
    } else {
      assert name[0] != 'i' && "id_ciclo"[0] == 'i';
    }
  }

  /** What the prepared document holds when the body has no id: the
      generated id, the defaulted `estado`, and the body's other paths. */
  lemma PreparedGet(docs: seq<Ciclo>, body: Js.Body, k: string)
    requires MissingValue(Js.Get(body, "id_ciclo"), true)
    ensures Js.Get(Prepared(docs, body), "id_ciclo") == Js.Str(GeneratedId(|docs|))
    ensures Js.Get(Prepared(docs, body), "estado") == Js.Get(NewDocument(body), "estado")
    ensures k != "id_ciclo" && k != "estado" ==> Js.Get(Prepared(docs, body), k) == Js.Get(Strict(body), k)
  {
    var defaulted := NewDocument(body);
    assert "id_ciclo" in SchemaPaths;
    assert Js.Get(defaulted, "id_ciclo") == Js.Get(body, "id_ciclo");
  }

  /** A body that lacks only its id validates once the generator has
      filled it in. */
  lemma PreparedValidates(docs: seq<Ciclo>, body: Js.Body)
    requires MissingValue(Js.Get(body, "id_ciclo"), true)
    requires forall i :: 1 <= i < |RequiredPaths| ==> !MissingValue(Js.Get(body, RequiredPaths[i].0), RequiredPaths[i].1)
    requires EstadoOk(Js.Get(body, "estado"))
    ensures Validates(Prepared(docs, body))
    ensures Js.Get(Prepared(docs, body), "id_ciclo") == Js.Str(GeneratedId(|docs|))
  {
    var fields := Prepared(docs, body);
    PreparedGet(docs, body, "estado");
    assert "estado" in SchemaPaths;
    forall i | 0 <= i < |RequiredPaths|
      ensures !MissingValue(Js.Get(fields, RequiredPaths[i].0), RequiredPaths[i].1)
    {
      if i > 0 {
        OtherRequiredPaths(i);
        RequiredInSchema(i);
        PreparedGet(docs, body, RequiredPaths[i].0);
      }
    }
  }

  /** With the generator first, a body that lacks only its id is stored
      under the generated id whenever that id is free. */
  lemma CreateGeneratesId(docs: seq<Ciclo>, body: Js.Body, insumos: seq<Js.Body>, sensores: seq<Js.JsValue>)
    requires MissingValue(Js.Get(body, "id_ciclo"), true)
    requires forall i :: 1 <= i < |RequiredPaths| ==> !MissingValue(Js.Get(body, RequiredPaths[i].0), RequiredPaths[i].1)
    requires EstadoOk(Js.Get(body, "estado"))
    requires !IdTaken(docs, Js.Str(GeneratedId(|docs|)))
    ensures Create(docs, body, insumos, sensores).0 == 201
    ensures IdOf(Create(docs, body, insumos, sensores).1[|docs|]) == Js.Str(GeneratedId(|docs|))
  {
    PreparedValidates(docs, body);
  }

  /** Creating keeps ids unique and every estado in the enum. */
  lemma CreateKeepsInvariants(docs: seq<Ciclo>, body: Js.Body, insumos: seq<Js.Body>, sensores: seq<Js.JsValue>)
    requires UniqueIds(docs) && EstadosOk(docs)
    ensures UniqueIds(Create(docs, body, insumos, sensores).1) && EstadosOk(Create(docs, body, insumos, sensores).1)
  {
    var (code, after) := Create(docs, body, insumos, sensores);
    if code == 201 {
      forall i, j | 0 <= i < j < |after| ensures IdOf(after[i]) != IdOf(after[j]) {
        assert after[i] == docs[i];
        if j < |docs| {
          assert after[j] == docs[j];
        }
      }
      forall i | 0 <= i < |after| ensures EstadoOk(Js.Get(after[i].fields, "estado")) {
        if i < |docs| {
          assert after[i] == docs[i];
        }
      }
    }
  }

  // ---------------------------------------------------------------------
  // Controller

  predicate HasId(c: Ciclo, id: string) {
    IdOf(c) == Js.Str(id)
  }

  /** The position of the first document with the id (`findOne`). */
  function Find(docs: seq<Ciclo>, id: string): (r: Option<nat>)
    ensures r.None? <==> !IdTaken(docs, Js.Str(id))
    ensures r.Some? ==> r.value < |docs| && HasId(docs[r.value], id)
    ensures r.Some? ==> forall i :: 0 <= i < r.value ==> !HasId(docs[i], id)
    decreases |docs|
  {
    if docs == [] then None
    else if HasId(docs[0], id) then Some(0)
    else
      match Find(docs[1..], id)
      case None =>
        assert forall i :: 1 <= i < |docs| ==> docs[i] == docs[1..][i - 1];
        None
      case Some(k) =>
        assert forall i :: 1 <= i <= k ==> docs[i] == docs[1..][i - 1];
        Some(k + 1)
  }

  /** `getCicloById`: 404 when no document has the id. */
  function GetById(docs: seq<Ciclo>, id: string): (r: (nat, Option<Ciclo>))
    ensures r.0 == 404 <==> !IdTaken(docs, Js.Str(id))
    ensures r.0 == 404 ==> r.1.None?
    ensures r.0 != 404 ==> r.0 == 200 && r.1.Some? && r.1.value in docs && HasId(r.1.value, id)
  {
    match Find(docs, id)
    case None => (404, None)
    case Some(i) => (200, Some(docs[i]))
  }

  /** `updateCiclo`: the update validators run first, so an `estado`
      outside the enum answers 400 whether or not the id exists; then 404
      for an unknown id; else the body's schema paths overwrite the
      document's and any other path is dropped. */
  function Update(docs: seq<Ciclo>, id: string, body: Js.Body): (r: (nat, seq<Ciclo>))
    ensures r.0 == 400 <==> !EstadoOk(Js.Get(body, "estado"))
    ensures r.0 == 404 <==> EstadoOk(Js.Get(body, "estado")) && !IdTaken(docs, Js.Str(id))
    ensures r.0 == 400 || r.0 == 404 || r.0 == 200
    ensures r.0 != 200 ==> r.1 == docs
    ensures |r.1| == |docs|
    ensures r.0 == 200 ==> var i := Find(docs, id).value;
      r.1 == docs[i := docs[i].(fields := docs[i].fields + Strict(body))]
  {
    if !EstadoOk(Js.Get(body, "estado")) then (400, docs)
    else
      match Find(docs, id)
      case None => (404, docs)
      case Some(i) => (200, docs[i := docs[i].(fields := docs[i].fields + Strict(body))])
  }

  /** Every stored document holds schema paths only. */
  predicate SchemaOnly(docs: seq<Ciclo>) {
    forall i :: 0 <= i < |docs| ==> docs[i].fields.Keys <= SchemaPaths
  }

  /** Strict mode keeps a collection free of undeclared paths through a
      create, whatever the request body carries. */
  lemma CreateKeepsSchemaOnly(docs: seq<Ciclo>, body: Js.Body, insumos: seq<Js.Body>, sensores: seq<Js.JsValue>)
    requires SchemaOnly(docs)
    ensures SchemaOnly(Create(docs, body, insumos, sensores).1)
  {
    var created := Create(docs, body, insumos, sensores);
    if created.0 == 201 {
      assert "id_ciclo" in SchemaPaths;
      assert created.1 == docs + [Ciclo(Prepared(docs, body), insumos, sensores)];
      assert Prepared(docs, body).Keys <= SchemaPaths;
    }
  }

  /** The same holds for an update. */
  lemma UpdateKeepsSchemaOnly(docs: seq<Ciclo>, id: string, changes: Js.Body)
    requires SchemaOnly(docs)
    ensures SchemaOnly(Update(docs, id, changes).1)
  {
  }

  /** An update leaves every path it does not name as it was. */
  lemma UpdateKeepsOtherPaths(docs: seq<Ciclo>, id: string, body: Js.Body, k: string)
    requires Update(docs, id, body).0 == 200
    requires k !in body
    ensures forall i :: 0 <= i < |docs| ==>
      Js.Get(Update(docs, id, body).1[i].fields, k) == Js.Get(docs[i].fields, k)
  {
  }

  /** `deleteCiclo`: 404 when no document has the id, else the first one
      with it is removed. */
  function Delete(docs: seq<Ciclo>, id: string): (r: (nat, seq<Ciclo>))
    ensures r.0 == 404 <==> !IdTaken(docs, Js.Str(id))
    ensures r.0 == 404 ==> r.1 == docs
    ensures r.0 != 404 ==> r.0 == 200 && |r.1| == |docs| - 1 && IsSubsequence(r.1, docs)
  {
    match Find(docs, id)
    case None => (404, docs)
    case Some(i) =>
      var rest := docs[..i] + docs[i + 1..];
      DropOneIsSubsequence(docs, i);
      (200, rest)
  }

  lemma {:induction false} DropOneIsSubsequence<T>(s: seq<T>, i: nat)
    requires i < |s|
    ensures IsSubsequence(s[..i] + s[i + 1..], s)
  {
    if i == 0 {
      assert s[..0] + s[1..] == s[1..];
      SubsequenceOfItself(s[1..]);
      SubsequenceDrop(s[1..], s);
    } else {
      DropOneIsSubsequence(s[1..], i - 1);
      var t := s[1..][..i - 1] + s[1..][i..];
      assert s[..i] + s[i + 1..] == [s[0]] + t;
      assert ([s[0]] + t)[1..] == t;
    }
  }

  lemma {:induction false} SubsequenceOfItself<T>(s: seq<T>)
    ensures IsSubsequence(s, s)
  {
    if s != [] {
      SubsequenceOfItself(s[1..]);
    }
  }

  /** With unique ids, the deleted id is gone afterwards. */
  lemma DeleteRemovesId(docs: seq<Ciclo>, id: string)
    requires UniqueIds(docs)
    ensures !IdTaken(Delete(docs, id).1, Js.Str(id))
  {
    match Find(docs, id)
    case None =>
    case Some(i) =>
      var rest := docs[..i] + docs[i + 1..];
      forall j | 0 <= j < |rest| ensures !HasId(rest[j], id) {
        if j < i {
          assert rest[j] == docs[j];
        } else {
          assert rest[j] == docs[j + 1];
        }
      }
  }

  function WithEstado(estado: string): Ciclo -> bool {
    (c: Ciclo) => Js.Get(c.fields, "estado") == Js.Str(estado)
  }

  /** `getCiclosByEstado`: exactly the documents whose `estado` equals the
      parameter, in stored order. */
  function GetByEstado(docs: seq<Ciclo>, estado: string): (r: seq<Ciclo>)
    ensures IsSubsequence(r, docs)
    ensures forall c :: c in r <==> c in docs && Js.Get(c.fields, "estado") == Js.Str(estado)
  {
    FilterSpec(docs, WithEstado(estado));
    Filter(docs, WithEstado(estado))
  }

  /** An estado outside the enum selects nothing from a valid collection. */
  lemma GetByUnknownEstadoEmpty(docs: seq<Ciclo>, estado: string)
    requires EstadosOk(docs) && estado !in EstadoValues
    ensures GetByEstado(docs, estado) == []
  {
  }

  /** `addInsumo`: 404 for an unknown id with nothing changed; else the
      entry is appended to the document's insumos, without deduplication. */
  function AddInsumo(docs: seq<Ciclo>, id: string, entry: Js.Body): (r: (nat, seq<Ciclo>))
    ensures r.0 == 404 <==> !IdTaken(docs, Js.Str(id))
    ensures r.0 == 404 ==> r.1 == docs
    ensures r.0 != 404 ==> r.0 == 200 && |r.1| == |docs|
    ensures r.0 == 200 ==> var i := Find(docs, id).value;
      r.1[i].insumos == docs[i].insumos + [entry] && r.1[i].fields == docs[i].fields
      && r.1[i].sensores == docs[i].sensores
      && forall j :: 0 <= j < |docs| && j != i ==> r.1[j] == docs[j]
  {
    match Find(docs, id)
    case None => (404, docs)
    case Some(i) => (200, docs[i := docs[i].(insumos := docs[i].insumos + [entry])])
  }

  /** Recording the same entry twice records it twice. */
  lemma AddInsumoTwiceAppendsTwice(docs: seq<Ciclo>, id: string, entry: Js.Body)
    requires IdTaken(docs, Js.Str(id))
    ensures var once := AddInsumo(docs, id, entry).1;
      var twice := AddInsumo(once, id, entry).1;
      var i := Find(docs, id).value;
      twice[i].insumos == docs[i].insumos + [entry, entry]
  {
    var i := Find(docs, id).value;
    var once := AddInsumo(docs, id, entry).1;
    assert Find(once, id) == Some(i) by {
      assert HasId(once[i], id);
      assert forall j :: 0 <= j < i ==> once[j] == docs[j];
    }
  }

  /** `addSensor`: 404 for an unknown id; else the sensor is appended to
      the document's list unless it is already there. */
  function AddSensor(docs: seq<Ciclo>, id: string, sensor: Js.JsValue): (r: (nat, seq<Ciclo>))
    ensures r.0 == 404 <==> !IdTaken(docs, Js.Str(id))
    ensures r.0 == 404 ==> r.1 == docs
    ensures r.0 != 404 ==> r.0 == 200 && |r.1| == |docs|
    ensures r.0 == 200 ==> var i := Find(docs, id).value;
      sensor in r.1[i].sensores
      && (sensor in docs[i].sensores ==> r.1 == docs)
      && (sensor !in docs[i].sensores ==> r.1[i].sensores == docs[i].sensores + [sensor])
      && r.1[i].fields == docs[i].fields
      && forall j :: 0 <= j < |docs| && j != i ==> r.1[j] == docs[j]
  {
    match Find(docs, id)
    case None => (404, docs)
    case Some(i) =>
      if sensor in docs[i].sensores then (200, docs)
      else (200, docs[i := docs[i].(sensores := docs[i].sensores + [sensor])])
  }

  /** Assigning a sensor is idempotent. */
  lemma AddSensorIdempotent(docs: seq<Ciclo>, id: string, sensor: Js.JsValue)
    ensures var once := AddSensor(docs, id, sensor).1;
      AddSensor(once, id, sensor) == AddSensor(docs, id, sensor)
  {
    var (code, once) := AddSensor(docs, id, sensor);
    if code == 200 {
      var i := Find(docs, id).value;
      assert Find(once, id) == Some(i) by {
        assert HasId(once[i], id);
        assert forall j :: 0 <= j < i ==> once[j] == docs[j];
      }
    }
  }

  /** Every controller operation keeps every `estado` in the enum. */
  lemma OperationsKeepEstados(docs: seq<Ciclo>, id: string, body: Js.Body, sensor: Js.JsValue)
    requires EstadosOk(docs)
    ensures EstadosOk(Update(docs, id, body).1)
    ensures EstadosOk(Delete(docs, id).1)
    ensures EstadosOk(AddInsumo(docs, id, body).1)
    ensures EstadosOk(AddSensor(docs, id, sensor).1)
  {
    var (code, after) := Update(docs, id, body);
    if code == 200 {
      var i := Find(docs, id).value;
      assert EstadoOk(Js.Get(after[i].fields, "estado")) by {
        if "estado" !in body {
          assert Js.Get(after[i].fields, "estado") == Js.Get(docs[i].fields, "estado");
        }
      }
    }
    var (dcode, rest) := Delete(docs, id);
    if dcode == 200 {
      var i := Find(docs, id).value;
      forall j | 0 <= j < |rest| ensures EstadoOk(Js.Get(rest[j].fields, "estado")) {
        if j < i {
          assert rest[j] == docs[j];
        } else {
          assert rest[j] == docs[j + 1];
        }
      }
    }
  }
}
