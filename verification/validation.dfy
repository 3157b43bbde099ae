/** The client-side rule engine (`validateField`, `validateForm`), the
    sensor form's rule set, and the sensor submit gate. */
module Validation {
  import opened Wrappers
  import opened Seqs
  import Text
  import Numbers
  import Dates
  import Js

  // ---------------------------------------------------------------------
  // One field

  /** The rules of one field. A length limit of 0 is off (the rule value is
      falsy); `pattern` is the regular expression's `test`, left
      uninterpreted; an empty `message`, `minDate` or `maxDate` is absent;
      `custom` is the custom check, whose result passes only when it is
      `true`. */
  datatype Rules = Rules(
    required: bool,
    minLength: nat,
    maxLength: nat,
    pattern: Option<string -> bool>,
    message: string,
    min: Option<int>,
    max: Option<int>,
    date: bool,
    minDate: string,
    maxDate: string,
    custom: Option<string -> Js.JsValue>)

  /** The empty rule object. */
  const NoRules: Rules := Rules(false, 0, 0, None, "", None, None, false, "", "", None)

  /** Why a field was rejected; at most one reason is reported. */
  datatype Reason =
    | Missing
    | TooShort(minLength: nat)
    | TooLong(maxLength: nat)
    | BadFormat(message: string)
    | BelowMin(min: int)
    | AboveMax(max: int)
    | BadDate
    | TooEarly(minDate: string)
    | TooLate(maxDate: string)
    | Rejected(result: Js.JsValue)

  datatype Outcome = Valid | Invalid(reason: Reason)

  /** `new Date(text)`; `None` is an invalid date. */
  function ReadDate(s: string): Option<Dates.Date> {
    Dates.ParseDateTime(s)
  }

  /** What the rule chain reads from a trimmed value: the text itself,
      `parseFloat` of it, `new Date` of it, and the date bounds of the
      rules (`None` for an empty bound or one that is not a date, which
      compares false and so passes). */
  datatype Reading = Reading(text: string, number: Option<real>, date: Option<Dates.Date>,
                             minDate: Option<Dates.Date>, maxDate: Option<Dates.Date>)

  function Read(r: Rules, v: string): (x: Reading)
    ensures x.text == v
  {
    Reading(v, Numbers.ParseFloat(v), ReadDate(v),
            if r.minDate == "" then None else ReadDate(r.minDate),
            if r.maxDate == "" then None else ReadDate(r.maxDate))
  }

  predicate Earlier(a: Dates.Date, b: Dates.Date) {
    Dates.LessEq(a, b) && a != b
  }

  // The individual checks, on the reading of the trimmed value.

  predicate MissingFails(r: Rules, x: Reading) {
    r.required && x.text == ""
  }

  predicate TooShortFails(r: Rules, x: Reading) {
    r.minLength > 0 && |x.text| < r.minLength
  }

  predicate TooLongFails(r: Rules, x: Reading) {
    r.maxLength > 0 && |x.text| > r.maxLength
  }

  predicate PatternFails(r: Rules, x: Reading) {
    r.pattern.Some? && !r.pattern.value(x.text)
  }

  /** `parseFloat(v) < min`: a value that does not parse compares false
      and so passes. */
  predicate BelowMinFails(r: Rules, x: Reading) {
    r.min.Some? && x.number.Some? && x.number.value < r.min.value as real
  }

  predicate AboveMaxFails(r: Rules, x: Reading) {
    r.max.Some? && x.number.Some? && x.number.value > r.max.value as real
  }

  predicate BeforeMinDate(x: Reading, d: Dates.Date) {
    x.minDate.Some? && Earlier(d, x.minDate.value)
  }

  predicate AfterMaxDate(x: Reading, d: Dates.Date) {
    x.maxDate.Some? && Earlier(x.maxDate.value, d)
  }

  predicate DateFails(r: Rules, x: Reading) {
    r.date && (x.date.None? || BeforeMinDate(x, x.date.value) || AfterMaxDate(x, x.date.value))
  }

  predicate CustomFails(r: Rules, x: Reading) {
    r.custom.Some? && r.custom.value(x.text) != Js.Bool(true)
  }

  /** The else-if chain of `validateField` on the reading of an already
      trimmed value: required, minimum length, maximum length, pattern,
      minimum, maximum, date, custom — the first that applies decides. A
      field with `date` set never reaches `custom`. */
  function Decide(r: Rules, x: Reading): (o: Outcome)
    ensures o.Valid? <==>
      !MissingFails(r, x) && !TooShortFails(r, x) && !TooLongFails(r, x) && !PatternFails(r, x)
      && !BelowMinFails(r, x) && !AboveMaxFails(r, x) && !DateFails(r, x) && (r.date || !CustomFails(r, x))
    ensures o == Invalid(Missing) <==> MissingFails(r, x)
  {
    if MissingFails(r, x) then Invalid(Missing)
    else if TooShortFails(r, x) then Invalid(TooShort(r.minLength))
    else if TooLongFails(r, x) then Invalid(TooLong(r.maxLength))
    else if PatternFails(r, x) then
      Invalid(BadFormat(if r.message != "" then r.message else "Formato inválido"))
    else if BelowMinFails(r, x) then Invalid(BelowMin(r.min.value))
    else if AboveMaxFails(r, x) then Invalid(AboveMax(r.max.value))
    else if r.date then
      match x.date
      case None => Invalid(BadDate)
      case Some(d) =>
        if BeforeMinDate(x, d) then Invalid(TooEarly(r.minDate))
        else if AfterMaxDate(x, d) then Invalid(TooLate(r.maxDate))
        else Valid
    else if CustomFails(r, x) then Invalid(Rejected(r.custom.value(x.text)))
    else Valid
  }

  /** The chain on a trimmed value. */
  function Verdict(r: Rules, v: string): Outcome {
    Decide(r, Read(r, v))
  }

  /** `validateField`: the value is trimmed before any rule sees it. */
  function ValidateField(r: Rules, raw: string): Outcome {
    Verdict(r, Text.Trim(raw))
  }

  /** The checks of the chain, in order. */
  datatype Check = RequiredCheck | MinLengthCheck | MaxLengthCheck | PatternCheck
                 | MinCheck | MaxCheck | DateCheck | CustomCheck

  function Rank(c: Check): nat {
    match c
    case RequiredCheck => 0
    case MinLengthCheck => 1
    case MaxLengthCheck => 2
    case PatternCheck => 3
    case MinCheck => 4
    case MaxCheck => 5
    case DateCheck => 6
    case CustomCheck => 7
  }

  /** The check a reason comes from. */
  function CheckOf(reason: Reason): Check {
    match reason
    case Missing => RequiredCheck
    case TooShort(_) => MinLengthCheck
    case TooLong(_) => MaxLengthCheck
    case BadFormat(_) => PatternCheck
    case BelowMin(_) => MinCheck
    case AboveMax(_) => MaxCheck
    case BadDate => DateCheck
    case TooEarly(_) => DateCheck
    case TooLate(_) => DateCheck
    case Rejected(_) => CustomCheck
  }

  /** Check `c` rejects the reading (the custom check only counts for a
      field without `date`). */
  predicate Fails(c: Check, r: Rules, x: Reading) {
    match c
    case RequiredCheck => MissingFails(r, x)
    case MinLengthCheck => TooShortFails(r, x)
    case MaxLengthCheck => TooLongFails(r, x)
    case PatternCheck => PatternFails(r, x)
    case MinCheck => BelowMinFails(r, x)
    case MaxCheck => AboveMaxFails(r, x)
    case DateCheck => DateFails(r, x)
    case CustomCheck => !r.date && CustomFails(r, x)
  }

  /** The reported reason is that of the first failing check in the fixed
      order: its check fails and every earlier one passes. */
  lemma FirstFailure(r: Rules, x: Reading)
    requires Decide(r, x).Invalid?
    ensures var c := CheckOf(Decide(r, x).reason);
      Fails(c, r, x) && forall e :: Rank(e) < Rank(c) ==> !Fails(e, r, x)
  {
    var c := CheckOf(Decide(r, x).reason);
    if MissingFails(r, x) {
      assert c == RequiredCheck;
    } else if TooShortFails(r, x) {
      assert c == MinLengthCheck;
    } else if TooLongFails(r, x) {
      assert c == MaxLengthCheck;
    } else if PatternFails(r, x) {
      assert c == PatternCheck;
    } else if BelowMinFails(r, x) {
      assert c == MinCheck;
    } else if AboveMaxFails(r, x) {
      assert c == MaxCheck;
    } else if r.date {
      assert c == DateCheck;
    } else {
      assert c == CustomCheck;
    }
  }

  /** The outcome depends on the trimmed value only. */
  lemma TrimFirst(r: Rules, raw: string)
    ensures ValidateField(r, raw) == ValidateField(r, Text.Trim(raw))
  {
    Text.TrimIdempotent(raw);
  }

  /** `${n}` for an integer. */
  function IntText(i: int): string {
    if i < 0 then "-" + Numbers.NatToString(-i) else Numbers.NatToString(i)
  }

  /** The error text shown under a rejected field; a custom result that is
      not a string is shown as its own text, left abstract here as
      `other`. */
  function Message(reason: Reason, other: string): (m: string)
    ensures reason == Missing ==> m == "Este campo es obligatorio"
    ensures reason.BadFormat? ==> m == reason.message
  {
    match reason
    case Missing => "Este campo es obligatorio"
    case TooShort(n) => "Este campo debe tener al menos " + Numbers.NatToString(n) + " caracteres"
    case TooLong(n) => "Este campo debe tener máximo " + Numbers.NatToString(n) + " caracteres"
    case BadFormat(text) => text
    case BelowMin(n) => "El valor mínimo es " + IntText(n)
    case AboveMax(n) => "El valor máximo es " + IntText(n)
    case BadDate => "Fecha inválida"
    case TooEarly(bound) => "La fecha debe ser posterior a " + Dates.FormatDate(bound, Dates.DisplayFormat)
    case TooLate(bound) => "La fecha debe ser anterior a " + Dates.FormatDate(bound, Dates.DisplayFormat)
    case Rejected(result) => if result.Str? then result.s else other
  }

  // ---------------------------------------------------------------------
  // A whole form

  /** The results `validateForm` shows for the rule entries it has read:
      one per entry whose field the form has, in rule order, each the
      verdict of `check` on that field. The form uses `ValidateField`;
      the facts about the walk hold for any per-field check. */
  function ResultsBy(fields: map<string, string>, rules: seq<(string, Rules)>,
                     check: (Rules, string) -> Outcome): (out: seq<(string, Outcome)>)
    ensures |out| <= |rules|
  {
    if rules == [] then []
    else
      var init, last := rules[..|rules| - 1], rules[|rules| - 1];
      ResultsBy(fields, init, check)
      + (if last.0 in fields then [(last.0, check(last.1, fields[last.0]))] else [])
  }

  function Results(fields: map<string, string>, rules: seq<(string, Rules)>): (out: seq<(string, Outcome)>)
    ensures |out| <= |rules|
  {
    ResultsBy(fields, rules, ValidateField)
  }

  predicate AllValid(out: seq<(string, Outcome)>) {
    forall i :: 0 <= i < |out| ==> out[i].1.Valid?
  }

  function Present(fields: map<string, string>): ((string, Rules)) -> bool {
    (e: (string, Rules)) => e.0 in fields
  }

  /** Every present field is validated, even after an earlier one failed:
      one result per rule entry whose field exists, in rule order, each
      the verdict on that field. */
  lemma {:induction false} ResultsCoverPresent(fields: map<string, string>, rules: seq<(string, Rules)>,
                                               check: (Rules, string) -> Outcome)
    ensures |ResultsBy(fields, rules, check)| == Count(rules, Present(fields))
    ensures forall i :: 0 <= i < |ResultsBy(fields, rules, check)| ==>
      var e := Filter(rules, Present(fields))[i];
      ResultsBy(fields, rules, check)[i] == (e.0, check(e.1, fields[e.0]))
  {
    if rules != [] {
      var init, last := rules[..|rules| - 1], rules[|rules| - 1];
      assert rules == init + [last];
      ResultsCoverPresent(fields, init, check);
      FilterAppend(init, [last], Present(fields));
      assert Filter([last], Present(fields)) == (if last.0 in fields then [last] else []) + Filter([], Present(fields));
    }
  }

  /** `validateForm(formId, rules)`: false when the form is missing;
      otherwise every rule entry whose field exists is validated in
      order, and the form is valid when all of them are. */
  method ValidateForm(form: Option<map<string, string>>, rules: seq<(string, Rules)>)
    returns (ok: bool, shown: seq<(string, Outcome)>)
    ensures form.None? ==> !ok && shown == []
    ensures form.Some? ==> shown == Results(form.value, rules)
    ensures ok <==> form.Some? && AllValid(shown)
  {
    if form.None? {
      return false, [];
    }
    ok, shown := ValidateAll(form.value, rules, ValidateField);
  }

  /** The loop of `validateForm` with the per-field check `check`. */
  method ValidateAll(fields: map<string, string>, rules: seq<(string, Rules)>, check: (Rules, string) -> Outcome)
    returns (ok: bool, shown: seq<(string, Outcome)>)
    ensures shown == ResultsBy(fields, rules, check)
    ensures ok <==> AllValid(shown)
  {
    ok := true;
    shown := [];
    var i := 0;
    while i < |rules|
      invariant 0 <= i <= |rules|
      invariant shown == ResultsBy(fields, rules[..i], check)
      invariant ok <==> AllValid(shown)
    {
      assert rules[..i + 1][..i] == rules[..i];
      var (name, fieldRules) := rules[i];
      if name in fields {
        var outcome := check(fieldRules, fields[name]);
        AllValidAppend(shown, [(name, outcome)]);
        assert AllValid([(name, outcome)]) <==> outcome.Valid? by {
          assert [(name, outcome)][0] == (name, outcome);
        }
        shown := shown + [(name, outcome)];
        ok := ok && outcome.Valid?;
      }
      i := i + 1;
    }
    assert rules[..i] == rules;
  }

  // ---------------------------------------------------------------------
  // The sensor form

  /** The rule object of the sensor form. */
  const SensorRules: seq<(string, Rules)> := [
    ("tipo", NoRules.(required := true)),
    ("nombre", NoRules.(required := true, minLength := 3, maxLength := 100)),
    ("unidad_medida", NoRules.(required := true, maxLength := 20)),
    ("tiempo_escaneo", NoRules.(required := true, min := Some(1))),
    ("descripcion", NoRules.(required := true, minLength := 10)),
    ("estado", NoRules.(required := true))
  ]

  /** The trimmed value of a field the form has. */
  function Value(fields: map<string, string>, name: string): string
    requires name in fields
  {
    Text.Trim(fields[name])
  }

  /** What the sensor rules demand, in words: non-blank `tipo` and
      `estado`; `nombre` of 3 to 100 characters; `unidad_medida` non-blank
      and at most 20; `tiempo_escaneo` non-blank and not a number below 1;
      `descripcion` of at least 10; all after trimming, and only for the
      fields the form has. */
  predicate SensorFieldsOk(fields: map<string, string>) {
    && ("tipo" in fields ==> Value(fields, "tipo") != "")
    && ("nombre" in fields ==> 3 <= |Value(fields, "nombre")| <= 100)
    && ("unidad_medida" in fields ==> Value(fields, "unidad_medida") != "" && |Value(fields, "unidad_medida")| <= 20)
    && ("tiempo_escaneo" in fields ==>
          (Value(fields, "tiempo_escaneo") != ""
           && !(Numbers.ParseFloat(Value(fields, "tiempo_escaneo")).Some?
                && Numbers.ParseFloat(Value(fields, "tiempo_escaneo")).value < 1.0)))
    && ("descripcion" in fields ==> |Value(fields, "descripcion")| >= 10)
    && ("estado" in fields ==> Value(fields, "estado") != "")
  }

  lemma SensorRulesMeaning(fields: map<string, string>)
    ensures AllValid(Results(fields, SensorRules)) <==> SensorFieldsOk(fields)
  {
    ResultsValid(fields, SensorRules, ValidateField);
    EntriesOfSix(fields, SensorRules, ValidateField);
    SensorEntriesMeaning(fields);
  }

  /** A six-entry rule list passes when each of its entries does. */
  lemma EntriesOfSix(fields: map<string, string>, rs: seq<(string, Rules)>, check: (Rules, string) -> Outcome)
    requires |rs| == 6
    ensures (forall i :: 0 <= i < |rs| ==> EntryOk(fields, rs[i], check))
      <==> EntryOk(fields, rs[0], check) && EntryOk(fields, rs[1], check) && EntryOk(fields, rs[2], check)
           && EntryOk(fields, rs[3], check) && EntryOk(fields, rs[4], check) && EntryOk(fields, rs[5], check)
  {
    if EntryOk(fields, rs[0], check) && EntryOk(fields, rs[1], check) && EntryOk(fields, rs[2], check)
       && EntryOk(fields, rs[3], check) && EntryOk(fields, rs[4], check) && EntryOk(fields, rs[5], check) {
      forall i | 0 <= i < |rs| ensures EntryOk(fields, rs[i], check) {
        assert i in {0, 1, 2, 3, 4, 5};
      }
    }
  }

  /** Each sensor rule entry, in words. */
  lemma SensorEntriesMeaning(fields: map<string, string>)
    ensures EntryOk(fields, SensorRules[0], ValidateField) <==> ("tipo" in fields ==> Value(fields, "tipo") != "")
    ensures EntryOk(fields, SensorRules[1], ValidateField) <==> ("nombre" in fields ==> 3 <= |Value(fields, "nombre")| <= 100)
    ensures EntryOk(fields, SensorRules[2], ValidateField) <==>
      ("unidad_medida" in fields ==> Value(fields, "unidad_medida") != "" && |Value(fields, "unidad_medida")| <= 20)
    ensures EntryOk(fields, SensorRules[3], ValidateField) <==>
      ("tiempo_escaneo" in fields ==>
         (Value(fields, "tiempo_escaneo") != ""
          && !(Numbers.ParseFloat(Value(fields, "tiempo_escaneo")).Some?
               && Numbers.ParseFloat(Value(fields, "tiempo_escaneo")).value < 1.0)))
    ensures EntryOk(fields, SensorRules[4], ValidateField) <==> ("descripcion" in fields ==> |Value(fields, "descripcion")| >= 10)
    ensures EntryOk(fields, SensorRules[5], ValidateField) <==> ("estado" in fields ==> Value(fields, "estado") != "")
  {
    EntryMeaning(fields, SensorRules[0]);
    EntryMeaning(fields, SensorRules[1]);
    EntryMeaning(fields, SensorRules[2]);
    EntryMeaning(fields, SensorRules[3]);
    EntryMeaning(fields, SensorRules[4]);
    EntryMeaning(fields, SensorRules[5]);
  }

  /** The presence, length and minimum conditions on a trimmed value. */
  predicate PlainOk(r: Rules, v: string) {
    && (r.required ==> v != "")
    && (r.minLength > 0 ==> |v| >= r.minLength)
    && (r.maxLength > 0 ==> |v| <= r.maxLength)
    && !(r.min.Some? && Numbers.ParseFloat(v).Some? && Numbers.ParseFloat(v).value < r.min.value as real)
  }

  /** An entry with no pattern, date, custom or maximum check passes
      exactly when its field is absent or meets the plain conditions. */
  lemma EntryMeaning(fields: map<string, string>, e: (string, Rules))
    requires e.1.pattern.None? && !e.1.date && e.1.custom.None? && e.1.max.None?
    ensures EntryOk(fields, e, ValidateField) <==> (e.0 in fields ==> PlainOk(e.1, Value(fields, e.0)))
  {
    if e.0 in fields {
      var v := Value(fields, e.0);
      var x := Read(e.1, v);
      assert ValidateField(e.1, fields[e.0]) == Decide(e.1, x);
      assert x.number == Numbers.ParseFloat(v);
      VerdictMeaning(e.1, x);
    }
  }

  /** For rules with no pattern, date, custom or maximum check, validity
      is the presence, length and minimum conditions alone. */
  lemma VerdictMeaning(r: Rules, x: Reading)
    requires r.pattern.None? && !r.date && r.custom.None? && r.max.None?
    ensures Decide(r, x).Valid? <==>
      (r.required ==> x.text != "") && (r.minLength > 0 ==> |x.text| >= r.minLength)
      && (r.maxLength > 0 ==> |x.text| <= r.maxLength)
      && !(r.min.Some? && x.number.Some? && x.number.value < r.min.value as real)
  {
  }

  /** Rule entry `e` passes `check`: its field is absent or valid. */
  predicate EntryOk(fields: map<string, string>, e: (string, Rules), check: (Rules, string) -> Outcome) {
    e.0 in fields ==> check(e.1, fields[e.0]).Valid?
  }

  /** A form passes exactly when every rule entry passes. */
  lemma {:induction false} ResultsValid(fields: map<string, string>, rules: seq<(string, Rules)>,
                                        check: (Rules, string) -> Outcome)
    ensures AllValid(ResultsBy(fields, rules, check)) <==>
      forall i :: 0 <= i < |rules| ==> EntryOk(fields, rules[i], check)
  {
    if rules != [] {
      var init, last := rules[..|rules| - 1], rules[|rules| - 1];
      ResultsValid(fields, init, check);
      var tail := if last.0 in fields then [(last.0, check(last.1, fields[last.0]))] else [];
      AllValidAppend(ResultsBy(fields, init, check), tail);
      assert AllValid(tail) <==> EntryOk(fields, last, check) by {
        if last.0 in fields {
          assert tail[0] == (last.0, check(last.1, fields[last.0]));
        }
      }
      assert forall i :: 0 <= i < |init| ==> init[i] == rules[i];
    }
  }

  lemma AllValidAppend(a: seq<(string, Outcome)>, b: seq<(string, Outcome)>)
    ensures AllValid(a + b) <==> AllValid(a) && AllValid(b)
  {
    if AllValid(a) && AllValid(b) {
      forall i | 0 <= i < |a + b| ensures (a + b)[i].1.Valid? {
        if i >= |a| {
          assert (a + b)[i] == b[i - |a|];
        }
      }
    }
    if AllValid(a + b) {
      forall i | 0 <= i < |b| ensures b[i].1.Valid? {
        assert (a + b)[|a| + i] == b[i];
      }
      forall i | 0 <= i < |a| ensures a[i].1.Valid? {
        assert (a + b)[i] == a[i];
      }
    }
  }

  /** The sensor payload: the raw form values (`formData.get`), `null` for
      a field the form does not have. */
  datatype SensorData = SensorData(
    nombre: Js.JsValue, tipo: Js.JsValue, unidadMedida: Js.JsValue,
    tiempoEscaneo: Js.JsValue, descripcion: Js.JsValue, estado: Js.JsValue)

  function FormGet(fields: map<string, string>, name: string): Js.JsValue {
    if name in fields then Js.Str(fields[name]) else Js.Null
  }

  function SensorPayload(fields: map<string, string>): SensorData {
    SensorData(FormGet(fields, "nombre"), FormGet(fields, "tipo"), FormGet(fields, "unidad_medida"),
               FormGet(fields, "tiempo_escaneo"), FormGet(fields, "descripcion"), FormGet(fields, "estado"))
  }

  /** The request a sensor form submit sends. */
  datatype SensorCall = NoCall | CreateSensor(data: SensorData) | UpdateSensor(id: string, data: SensorData)

  /** The submit listener: nothing unless the whole form passes the sensor
      rules; then an update of the stored id in edit mode, a create
      otherwise. */
  method SubmitSensor(form: Option<map<string, string>>, isEditMode: bool, currentId: string)
    returns (call: SensorCall)
    ensures call.NoCall? <==> form.None? || !SensorFieldsOk(form.value)
    ensures call.CreateSensor? <==> !call.NoCall? && !isEditMode
    ensures call.UpdateSensor? ==> call.id == currentId
    ensures !call.NoCall? ==> call.data == SensorPayload(form.value)
  {
    var ok, _ := ValidateForm(form, SensorRules);
    if form.Some? {
      SensorRulesMeaning(form.value);
    }
    if !ok {
      return NoCall;
    }
    var data := SensorPayload(form.value);
    call := if isEditMode then UpdateSensor(currentId, data) else CreateSensor(data);
  }
}
