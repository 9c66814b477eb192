/**
 * The forms of app/forms.py, each declared as its list of fields and
 * validator chains, and what each accepts. Fields without validators
 * (`remember_me`, the submit buttons) accept anything and are not listed.
 */
module Forms {
  import opened Wrappers
  import opened Validators

  /** Highest score a single turn may hold in the score editor. */
  const MaxTurnScore: int := 27

  const LoginForm: seq<Field> := [
    Field("username", StringField, [DataRequired]),
    Field("password", StringField, [DataRequired])
  ]

  const RegistrationForm: seq<Field> := [
    Field("username", StringField, [DataRequired, Length(1, 50), UsernameUnused]),
    Field("email", StringField, [DataRequired, Email]),
    Field("forename", StringField, [DataRequired]),
    Field("surname", StringField, [DataRequired]),
    Field("password", StringField, [DataRequired, Length(6, NoMax)]),
    Field("password_check", StringField, [DataRequired, EqualTo("password")])
  ]

  const UpdateProfileForm: seq<Field> := [
    Field("username", StringField, [DataRequired, Length(1, 50)]),
    Field("email", StringField, [DataRequired, Email])
  ]

  const ChangePasswordForm: seq<Field> := [
    Field("current_password", StringField, [DataRequired]),
    Field("new_password", StringField, [DataRequired, Length(6, NoMax)]),
    Field("confirm_new_password", StringField, [DataRequired, EqualTo("new_password")])
  ]

  const CRMatchForm: seq<Field> := [
    Field("opponent", StringField, [DataRequired]),
    Field("location", StringField, [DataRequired]),
    Field("date", StringField, [DataRequired])
  ]

  const AddScoreForm: seq<Field> := [
    Field("score", IntegerField, [DataRequired])
  ]

  const TurnNames: seq<string> := [
    "turn_1", "turn_2", "turn_3", "turn_4", "turn_5",
    "turn_6", "turn_7", "turn_8", "turn_9", "turn_10"
  ]

  const TurnChain: seq<Validator> := [Optional, NumberRange(0, MaxTurnScore)]

  const EditScoresForm: seq<Field> :=
    seq(|TurnNames|, i requires 0 <= i < |TurnNames| => Field(TurnNames[i], IntegerField, TurnChain))

  /** Text of length lo..hi (hi == NoMax: no upper bound) held by a field. */
  predicate TextOfLength(form: FormData, name: string, lo: int, hi: int) {
    name in form && lo <= |form[name]| && (hi == NoMax || |form[name]| <= hi)
  }

  /** A string field `[DataRequired]`: accepted exactly when submitted. */
  lemma RequiredOnly(name: string, form: FormData, ctx: Context)
    ensures FieldAccepted(Field(name, StringField, [DataRequired]), form, ctx) <==> name in form
  {
    assert [DataRequired] == [DataRequired] + [];
    RequiredField(name, StringField, [], form, ctx);
  }

  /** A string field `[DataRequired, v]`: accepted exactly when submitted and `v` passes it. */
  lemma RequiredThen(name: string, v: Validator, form: FormData, ctx: Context)
    requires !Stops(v)
    ensures FieldAccepted(Field(name, StringField, [DataRequired, v]), form, ctx) <==>
              name in form && Apply(v, Input(name, StringField, form, ctx), form, ctx) == Pass
  {
    assert [DataRequired, v] == [DataRequired] + [v];
    RequiredField(name, StringField, [v], form, ctx);
    AllPassCons(v, [], Input(name, StringField, form, ctx), form, ctx);
    assert [v] == [v] + [];
  }

  lemma LoginAccepts(form: FormData, ctx: Context)
    ensures Validate(LoginForm, form, ctx) <==> "username" in form && "password" in form
  {
    var f := LoginForm;
    assert Validate(f, form, ctx) <==> FieldAccepted(f[0], form, ctx) && FieldAccepted(f[1], form, ctx);
    RequiredOnly("username", form, ctx);
    RequiredOnly("password", form, ctx);
  }

  /** The registration username: 1..50 characters, held by no existing user. */
  lemma NewUsernameAccepts(form: FormData, ctx: Context)
    ensures FieldAccepted(RegistrationForm[0], form, ctx) <==>
              TextOfLength(form, "username", 1, 50) && form["username"] !in ctx.existingUsernames
  {
    var d := Input("username", StringField, form, ctx);
    var u := [Length(1, 50), UsernameUnused];
    assert RegistrationForm[0] == Field("username", StringField, [DataRequired] + u);
    RequiredField("username", StringField, u, form, ctx);
    AllPassCons(Length(1, 50), [UsernameUnused], d, form, ctx);
    AllPassCons(UsernameUnused, [], d, form, ctx);
    assert u == [Length(1, 50)] + [UsernameUnused];
    assert [UsernameUnused] == [UsernameUnused] + [];
  }

  /**
   * Registration needs a username of 1..50 characters that no existing
   * user holds, an e-mail address, a forename, a surname, a password of
   * at least 6 characters, and a repeated password equal to it.
   */
  lemma RegistrationAccepts(form: FormData, ctx: Context)
    ensures Validate(RegistrationForm, form, ctx) <==>
      && TextOfLength(form, "username", 1, 50)
      && form["username"] !in ctx.existingUsernames
      && "email" in form && ctx.isEmail(form["email"])
      && "forename" in form
      && "surname" in form
      && TextOfLength(form, "password", 6, NoMax)
      && "password_check" in form && form["password_check"] == form["password"]
  {
    var f := RegistrationForm;
    assert Validate(f, form, ctx) <==>
      FieldAccepted(f[0], form, ctx) && FieldAccepted(f[1], form, ctx) && FieldAccepted(f[2], form, ctx) &&
      FieldAccepted(f[3], form, ctx) && FieldAccepted(f[4], form, ctx) && FieldAccepted(f[5], form, ctx);
    NewUsernameAccepts(form, ctx);
    RequiredThen("email", Email, form, ctx);
    RequiredOnly("forename", form, ctx);
    RequiredOnly("surname", form, ctx);
    RequiredThen("password", Length(6, NoMax), form, ctx);
    RequiredThen("password_check", EqualTo("password"), form, ctx);
  }

  /** Updating the profile needs a username of 1..50 characters and an e-mail address. */
  lemma UpdateProfileAccepts(form: FormData, ctx: Context)
    ensures Validate(UpdateProfileForm, form, ctx) <==>
      && TextOfLength(form, "username", 1, 50)
      && "email" in form && ctx.isEmail(form["email"])
  {
    var f := UpdateProfileForm;
    assert Validate(f, form, ctx) <==> FieldAccepted(f[0], form, ctx) && FieldAccepted(f[1], form, ctx);
    RequiredThen("username", Length(1, 50), form, ctx);
    RequiredThen("email", Email, form, ctx);
  }

  /**
   * Changing the password needs the current password, a new password of
   * at least 6 characters, and a confirmation equal to the new password.
   */
  lemma ChangePasswordAccepts(form: FormData, ctx: Context)
    ensures Validate(ChangePasswordForm, form, ctx) <==>
      && "current_password" in form
      && TextOfLength(form, "new_password", 6, NoMax)
      && "confirm_new_password" in form && form["confirm_new_password"] == form["new_password"]
  {
    var f := ChangePasswordForm;
    assert Validate(f, form, ctx) <==>
      FieldAccepted(f[0], form, ctx) && FieldAccepted(f[1], form, ctx) && FieldAccepted(f[2], form, ctx);
    RequiredOnly("current_password", form, ctx);
    RequiredThen("new_password", Length(6, NoMax), form, ctx);
    RequiredThen("confirm_new_password", EqualTo("new_password"), form, ctx);
  }

  lemma MatchFormAccepts(form: FormData, ctx: Context)
    ensures Validate(CRMatchForm, form, ctx) <==> "opponent" in form && "location" in form && "date" in form
  {
    var f := CRMatchForm;
    assert Validate(f, form, ctx) <==>
      FieldAccepted(f[0], form, ctx) && FieldAccepted(f[1], form, ctx) && FieldAccepted(f[2], form, ctx);
    RequiredOnly("opponent", form, ctx);
    RequiredOnly("location", form, ctx);
    RequiredOnly("date", form, ctx);
  }

  /**
   * The score form accepts any submitted text that parses as an integer,
   * whatever its value: it has no range check.
   */
  lemma AddScoreAccepts(form: FormData, ctx: Context)
    ensures Validate(AddScoreForm, form, ctx) <==> "score" in form && ctx.parseInt(form["score"]).Some?
  {
    assert Validate(AddScoreForm, form, ctx) <==> FieldAccepted(AddScoreForm[0], form, ctx);
    assert [DataRequired] == [DataRequired] + [];
    RequiredField("score", IntegerField, [], form, ctx);
  }

  /** A turn field's text is accepted: absent, blank, or an integer 0..27. */
  predicate TurnAccepted(raw: Option<string>, ctx: Context) {
    || raw.None?
    || IsBlank(raw.value)
    || (ctx.parseInt(raw.value).Some? && 0 <= ctx.parseInt(raw.value).value <= MaxTurnScore)
  }

  /** The score editor has exactly the ten turn fields turn_1 .. turn_10, each optional with range 0..27. */
  lemma EditScoresShape()
    ensures |EditScoresForm| == 10
    ensures forall i, j :: 0 <= i < j < |EditScoresForm| ==> EditScoresForm[i].name != EditScoresForm[j].name
    ensures forall i :: 0 <= i < |EditScoresForm| ==>
              EditScoresForm[i] == Field(TurnNames[i], IntegerField, [Optional, NumberRange(0, 27)])
  {
  }

  /**
   * One turn field accepts its text exactly when it is absent, blank, or
   * an integer in 0..27; blank text is not an integer, and `Optional`
   * discards that error.
   */
  lemma TurnFieldAccepts(name: string, form: FormData, ctx: Context)
    ensures FieldAccepted(Field(name, IntegerField, TurnChain), form, ctx) <==> TurnAccepted(Lookup(form, name), ctx)
  {
    var v := NumberRange(0, MaxTurnScore);
    assert TurnChain == [Optional] + [v];
    OptionalField(name, IntegerField, [v], form, ctx);
    AllPassCons(v, [], Input(name, IntegerField, form, ctx), form, ctx);
    assert [v] == [v] + [];
  }

  /** The score editor accepts a submission exactly when each of the ten turns is accepted. */
  lemma EditScoresAccepts(form: FormData, ctx: Context)
    ensures Validate(EditScoresForm, form, ctx) <==>
              forall i :: 0 <= i < |TurnNames| ==> TurnAccepted(Lookup(form, TurnNames[i]), ctx)
  {
    forall i | 0 <= i < |TurnNames|
      ensures FieldAccepted(EditScoresForm[i], form, ctx) <==> TurnAccepted(Lookup(form, TurnNames[i]), ctx)
    {
      TurnFieldAccepts(TurnNames[i], form, ctx);
    }
  }
}
