/**
 * The WTForms validators that app/forms.py uses, and the way a field runs
 * its chain of validators. The field first turns its submitted text into
 * data, recording an error for text an integer field cannot parse. Then an
 * `Optional` on absent or blank text clears the errors and stops the chain,
 * a `DataRequired` on a field without data replaces them with its own error
 * and stops it, and every other validator adds an error and lets the chain
 * go on. A form is accepted when no field has an error.
 */
module Validators {
  import opened Wrappers

  /**
   * Submitted form data as it arrives: the text entered in each field. A
   * field missing from the map was not submitted.
   */
  type FormData = map<string, string>

  function Lookup(form: FormData, name: string): Option<string> {
    if name in form then Some(form[name]) else None
  }

  /** How a field turns its submitted text into data (a password field is a string field). */
  datatype Kind = StringField | IntegerField

  /** The data of a field after processing: text, or an integer. */
  datatype Value = Text(text: string) | Int(n: int)

  /** A length bound of -1 means "no upper bound", as in `Length(min=6)`. */
  const NoMax: int := -1

  datatype Validator =
    | DataRequired
    | Optional
    | Length(min: int, max: int)
    | NumberRange(min: int, max: int)
    | EqualTo(other: string)
    | Email
    | UsernameUnused          // RegistrationForm.validate_username

  /**
   * What fields and validators read besides the form: the usernames already
   * held by existing users, and two foreign checks, the e-mail syntax check
   * and Python's integer parsing of a field's text.
   */
  datatype Context = Context(existingUsernames: set<string>, isEmail: string -> bool,
                             parseInt: string -> Option<int>)

  /** An error a field reports: its text is no integer, or a validator failed. */
  datatype FieldError = NotAnInteger | Raised(validator: Validator)

  /** Text that `str.strip` reduces to nothing. */
  predicate IsBlank(s: string) {
    forall i :: 0 <= i < |s| ==> s[i] in {' ', '\t', '\n', '\r', '\U{B}', '\U{C}'}
  }

  /** The data a field holds after processing its submitted text. */
  function Data(kind: Kind, raw: Option<string>, ctx: Context): (data: Option<Value>)
    ensures data.Some? ==> raw.Some?
  {
    match kind
    case StringField => if raw.Some? then Some(Text(raw.value)) else None
    case IntegerField =>
      if raw.Some? && ctx.parseInt(raw.value).Some? then Some(Int(ctx.parseInt(raw.value).value)) else None
  }

  /** The error processing records: submitted text an integer field cannot parse. */
  function ProcessErrors(kind: Kind, raw: Option<string>, ctx: Context): (errors: seq<FieldError>)
    ensures errors == [] <==> (raw.Some? ==> Data(kind, raw, ctx).Some?)
  {
    if kind == IntegerField && raw.Some? && ctx.parseInt(raw.value).None? then [NotAnInteger] else []
  }

  /** What a validator sees of its own field: the submitted text and the processed data. */
  datatype FieldInput = FieldInput(raw: Option<string>, data: Option<Value>)

  datatype Outcome = Pass | Fail | StopQuietly | StopWithError

  /** The length a `Length` validator measures: 0 for an absent value. */
  function MeasuredLength(data: Option<Value>): nat {
    if data.Some? && data.value.Text? then |data.value.text| else 0
  }

  /**
   * One validator applied to its field. `EqualTo` compares with the other
   * field's data; every `EqualTo` of the forms names a string field, whose
   * data is its text.
   */
  function Apply(v: Validator, input: FieldInput, form: FormData, ctx: Context): Outcome {
    var raw := input.raw;
    var data := input.data;
    match v
    case DataRequired => if data.Some? then Pass else StopWithError
    case Optional => if raw.None? || IsBlank(raw.value) then StopQuietly else Pass
    case Length(lo, hi) =>
      var l := MeasuredLength(data);
      if l < lo || (hi != NoMax && l > hi) then Fail else Pass
    case NumberRange(lo, hi) =>
      if data.Some? && data.value.Int? && lo <= data.value.n <= hi then Pass else Fail
    case EqualTo(other) => if data == Data(StringField, Lookup(form, other), ctx) then Pass else Fail
    case Email => if data.Some? && data.value.Text? && ctx.isEmail(data.value.text) then Pass else Fail
    case UsernameUnused =>
      if data.Some? && data.value.Text? && data.value.text in ctx.existingUsernames then Fail else Pass
  }

  predicate Stops(v: Validator) {
    v == DataRequired || v == Optional
  }

  /**
   * The errors a field reports after running `chain`, having collected
   * `acc` so far.
   */
  function RunChain(chain: seq<Validator>, input: FieldInput, form: FormData, ctx: Context,
                    acc: seq<FieldError>): (errors: seq<FieldError>)
    ensures forall e :: e in errors ==> e in acc || (e.Raised? && e.validator in chain)
    ensures forall e :: e in acc && e !in errors ==> exists i :: 0 <= i < |chain| && Stops(chain[i])
  {
    if chain == [] then acc
    else
      match Apply(chain[0], input, form, ctx)
      case Pass => RunChain(chain[1..], input, form, ctx, acc)
      case Fail => RunChain(chain[1..], input, form, ctx, acc + [Raised(chain[0])])
      case StopQuietly => []
      case StopWithError => [Raised(chain[0])]
  }

  /** A chain without a stopping validator fails exactly when one of its validators fails. */
  lemma {:induction false} PlainChain(chain: seq<Validator>, input: FieldInput, form: FormData, ctx: Context,
                                      acc: seq<FieldError>)
    requires forall i :: 0 <= i < |chain| ==> Apply(chain[i], input, form, ctx) in {Pass, Fail}
    ensures RunChain(chain, input, form, ctx, acc) == [] <==>
              acc == [] && forall i :: 0 <= i < |chain| ==> Apply(chain[i], input, form, ctx) == Pass
  {
    if chain != [] {
      assert forall i :: 0 <= i < |chain[1..]| ==> chain[1..][i] == chain[i + 1];
      var out := Apply(chain[0], input, form, ctx);
      if out == Pass {
        PlainChain(chain[1..], input, form, ctx, acc);
        if acc == [] && (forall i :: 0 <= i < |chain[1..]| ==> Apply(chain[1..][i], input, form, ctx) == Pass) {
          forall i | 0 <= i < |chain| ensures Apply(chain[i], input, form, ctx) == Pass {
            if i > 0 { assert chain[i] == chain[1..][i - 1]; }
          }
        }
      } else {
        PlainChain(chain[1..], input, form, ctx, acc + [Raised(chain[0])]);
      }
    }
  }

  /** One field of a form: its name, its kind and its validator chain. */
  datatype Field = Field(name: string, kind: Kind, chain: seq<Validator>)

  /** What the validators of field `name`, of kind `kind`, see of it. */
  function Input(name: string, kind: Kind, form: FormData, ctx: Context): FieldInput {
    var raw := Lookup(form, name);
    FieldInput(raw, Data(kind, raw, ctx))
  }

  /** `field.validate`: the processing error, then the chain's errors. */
  function FieldErrors(f: Field, form: FormData, ctx: Context): seq<FieldError> {
    var raw := Lookup(form, f.name);
    RunChain(f.chain, Input(f.name, f.kind, form, ctx), form, ctx, ProcessErrors(f.kind, raw, ctx))
  }

  predicate FieldAccepted(f: Field, form: FormData, ctx: Context) {
    FieldErrors(f, form, ctx) == []
  }

  /** `form.validate()`: every field accepts its value. */
  predicate Validate(fields: seq<Field>, form: FormData, ctx: Context) {
    forall i :: 0 <= i < |fields| ==> FieldAccepted(fields[i], form, ctx)
  }

  /** Every validator of `chain` passes the field. */
  predicate AllPass(chain: seq<Validator>, input: FieldInput, form: FormData, ctx: Context) {
    forall i :: 0 <= i < |chain| ==> Apply(chain[i], input, form, ctx) == Pass
  }

  lemma AllPassCons(v: Validator, rest: seq<Validator>, input: FieldInput, form: FormData, ctx: Context)
    ensures AllPass([v] + rest, input, form, ctx) <==>
              Apply(v, input, form, ctx) == Pass && AllPass(rest, input, form, ctx)
  {
    var chain := [v] + rest;
    assert chain[0] == v;
    assert forall i :: 0 <= i < |rest| ==> chain[i + 1] == rest[i];
    if Apply(v, input, form, ctx) == Pass && AllPass(rest, input, form, ctx) {
      forall i | 0 <= i < |chain| ensures Apply(chain[i], input, form, ctx) == Pass {
        if i > 0 { assert chain[i] == rest[i - 1]; }
      }
    }
  }

  /**
   * A required field followed by validators that never stop: accepted
   * exactly when it has data and every validator passes it.
   */
  lemma RequiredField(name: string, kind: Kind, rest: seq<Validator>, form: FormData, ctx: Context)
    requires forall i :: 0 <= i < |rest| ==> !Stops(rest[i])
    ensures FieldAccepted(Field(name, kind, [DataRequired] + rest), form, ctx) <==>
              Data(kind, Lookup(form, name), ctx).Some? &&
              AllPass(rest, Input(name, kind, form, ctx), form, ctx)
  {
    var chain := [DataRequired] + rest;
    assert chain[1..] == rest;
    PlainChain(rest, Input(name, kind, form, ctx), form, ctx, []);
  }

  /**
   * An optional field followed by validators that never stop: accepted
   * exactly when its text is absent or blank, or it holds data without a
   * processing error and every validator passes it.
   */
  lemma OptionalField(name: string, kind: Kind, rest: seq<Validator>, form: FormData, ctx: Context)
    requires forall i :: 0 <= i < |rest| ==> !Stops(rest[i])
    ensures FieldAccepted(Field(name, kind, [Optional] + rest), form, ctx) <==>
              name !in form || IsBlank(form[name]) ||
              (ProcessErrors(kind, Lookup(form, name), ctx) == [] &&
               AllPass(rest, Input(name, kind, form, ctx), form, ctx))
  {
    var chain := [Optional] + rest;
    assert chain[1..] == rest;
    PlainChain(rest, Input(name, kind, form, ctx), form, ctx, ProcessErrors(kind, Lookup(form, name), ctx));
  }
}
