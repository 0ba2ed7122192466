/**
 * The store `createFormValidator` returns (src/index.ts): a state record
 * updated in place by its operations. Each zustand `set` is a field update
 * here, and the process-wide default-locale slot the validators read is the
 * `Globals` object passed to the operations that validate.
 */
module FormStore {
  import opened Optional
  import opened Messages
  import opened Validators
  import opened FormSpec

  class Form {
    /** The field definitions, fixed for the store's lifetime. */
    const defs: map<Field, FieldDef>
    var locale: string
    var values: map<Field, string>
    var initialValues: map<Field, string>
    var errors: map<Field, Option<string>>
    var valid: map<Field, bool>

    /**
     * All four maps are keyed by the defined fields, and a field without
     * validators is never flagged valid (validation skips it).
     */
    ghost predicate Valid()
      reads this
    {
      && values.Keys == defs.Keys
      && initialValues.Keys == defs.Keys
      && errors.Keys == defs.Keys
      && valid.Keys == defs.Keys
      && forall f :: f in defs && !HasValidators(defs[f]) ==> !valid[f]
    }

    /** `createFormValidator(form, settings)`; the browser language is a parameter. */
    constructor (defs: map<Field, FieldDef>, settingsLocale: Option<string>, navigatorLanguage: Option<string>, env: Globals)
      ensures Valid()
      ensures this.defs == defs
      ensures locale == FormLocale(env.catalog, settingsLocale, navigatorLanguage) && locale in env.catalog
      ensures forall f :: f in defs ==> values[f] == InitialValue(defs[f]) && errors[f] == None && !valid[f]
      ensures initialValues == values
      ensures !HasModified()
    {
      this.defs := defs;
      locale := FormLocale(env.catalog, settingsLocale, navigatorLanguage);
      values := InitialValues(defs);
      errors := InitialErrors(defs);
      initialValues := InitialValues(defs);
      valid := InitialValidFlags(defs);
      new;
      ModifiedIffDiffer(values, initialValues);
    }

    /** `setLocale(locale)`: the form's locale, which no validator reads. */
    method SetLocale(locale: string)
      modifies this
      ensures this.locale == locale
      ensures values == old(values) && initialValues == old(initialValues)
      ensures errors == old(errors) && valid == old(valid)
    {
      this.locale := locale;
    }

    /** `isValid()`: every defined field is flagged valid. */
    function IsValid(): (r: bool)
      reads this
      requires Valid()
      ensures r <==> forall f :: f in defs ==> valid[f]
      ensures r ==> forall f :: f in defs ==> HasValidators(defs[f])
    {
      AllValid(defs, valid)
    }

    /** `hasModified()`: some value differs from its initial value. */
    function HasModified(): (r: bool)
      reads this
      requires Valid()
      ensures r <==> values != initialValues
    {
      ModifiedIffDiffer(values, initialValues);
      Modified(values, initialValues)
    }

    /**
     * The inner loop of `validate`: runs the validators in order and stops
     * at the first one that does not answer `true`.
     */
    static method RunInOrder(ctx: Context, validators: seq<Validator>, v: string) returns (fieldHasError: bool, message: string)
      ensures fieldHasError <==> RunValidators(ctx, validators, v).Fail?
      ensures fieldHasError ==> message == RunValidators(ctx, validators, v).message
    {
      RunValidatorsFirstFailure(ctx, validators, v);
      fieldHasError, message := false, "";
      var i := 0;
      while i < |validators|
        invariant 0 <= i <= |validators|
        invariant forall j :: 0 <= j < i ==> validators[j](ctx, v).Pass?
      {
        var validationResult := validators[i](ctx, v);
        if validationResult.Fail? {
          fieldHasError, message := true, validationResult.message;
          break;
        }
        i := i + 1;
      }
    }

    /**
     * One iteration of `validate`: unless `field` is outside the selection or
     * has no validators, record the outcome of running them.
     */
    method ValidateField(field: Field, silent: bool, sel: Selection, ctx: Context)
      requires field in defs && field in errors && field in valid && field in values
      modifies this
      ensures values == old(values) && initialValues == old(initialValues) && locale == old(locale)
      ensures errors == old(errors)[field := ErrorAfterPass(defs[field], ctx, silent, sel, field, values[field], old(errors)[field])]
      ensures valid == old(valid)[field := FlagAfterPass(defs[field], ctx, sel, field, values[field], old(valid)[field])]
    {
      if sel.Only? && field !in sel.fields {
        return;
      }
      var validators := FieldValidators(defs[field]);
      if |validators| > 0 {
        var fieldHasError, message := RunInOrder(ctx, validators, values[field]);
        if fieldHasError {
          valid := valid[field := false];
          errors := errors[field := if silent then None else Some(message)];
        } else {
          errors := errors[field := None];
          valid := valid[field := true];
        }
      }
    }

    /**
     * `validate(silent, include)`: for every selected field with validators,
     * run them in order up to the first failure and record the outcome.
     */
    method Validate(silent: bool, sel: Selection, env: Globals)
      requires Valid() && env.Valid()
      modifies this
      ensures Valid()
      ensures values == old(values) && initialValues == old(initialValues) && locale == old(locale)
      ensures errors == ValidatedErrors(defs, env.Unbound(), silent, sel, old(values), old(errors))
      ensures valid == ValidatedFlags(defs, env.Unbound(), sel, old(values), old(valid))
    {
      var ctx := env.Unbound();
      var todo := values.Keys;
      SoFarStart(defs, ctx, silent, sel, values, errors, valid);
      while todo != {}
        invariant todo <= defs.Keys
        invariant values == old(values) && initialValues == old(initialValues) && locale == old(locale)
        invariant ErrorsSoFar(defs, ctx, silent, sel, values, old(errors), todo, errors)
        invariant FlagsSoFar(defs, ctx, sel, values, old(valid), todo, valid)
        decreases todo
      {
        var field :| field in todo;
        ErrorsStep(defs, ctx, silent, sel, values, old(errors), todo, errors, field);
        FlagsStep(defs, ctx, sel, values, old(valid), todo, valid, field);
        todo := todo - {field};
        ValidateField(field, silent, sel, ctx);
      }
      ErrorsDone(defs, ctx, silent, sel, values, old(errors), errors);
      FlagsDone(defs, ctx, sel, values, old(valid), valid);
    }

    /** `onBlur(field)`: a non-silent pass over that one field. */
    method OnBlur(field: Field, env: Globals)
      requires Valid() && env.Valid()
      modifies this
      ensures Valid()
      ensures values == old(values) && initialValues == old(initialValues) && locale == old(locale)
      ensures errors == ValidatedErrors(defs, env.Unbound(), false, Include([field]), old(values), old(errors))
      ensures valid == ValidatedFlags(defs, env.Unbound(), Include([field]), old(values), old(valid))
    {
      Validate(false, Include([field]), env);
    }

    /**
     * `onChange(m)`: merge `m` into the values (last write wins), then a
     * silent pass over the first key of `m` only.
     */
    method OnChange(m: Patch, env: Globals)
      requires Valid() && env.Valid()
      requires KeysOf(m) <= defs.Keys
      modifies this
      ensures Valid()
      ensures values == old(values) + AsMap(m)
      ensures initialValues == old(initialValues) && locale == old(locale)
      ensures errors == ValidatedErrors(defs, env.Unbound(), true, ChangeSelection(m), values, old(errors))
      ensures valid == ValidatedFlags(defs, env.Unbound(), ChangeSelection(m), values, old(valid))
      ensures forall f :: f in defs && (|m| == 0 || f != m[0].0) ==> errors[f] == old(errors)[f] && valid[f] == old(valid)[f]
    {
      MergeKeepsFields(values, m);
      values := values + AsMap(m);
      Validate(true, ChangeSelection(m), env);
    }

    /**
     * `setValues(m)`: merge `m` into the values, then a silent pass over
     * every key of `m` (over every field when `m` is empty).
     */
    method SetValues(m: Patch, env: Globals)
      requires Valid() && env.Valid()
      requires KeysOf(m) <= defs.Keys
      modifies this
      ensures Valid()
      ensures values == old(values) + AsMap(m)
      ensures initialValues == old(initialValues) && locale == old(locale)
      ensures errors == ValidatedErrors(defs, env.Unbound(), true, SetValuesSelection(m), values, old(errors))
      ensures valid == ValidatedFlags(defs, env.Unbound(), SetValuesSelection(m), values, old(valid))
      ensures forall f :: f in defs && |m| > 0 && f !in KeysOf(m) ==> errors[f] == old(errors)[f] && valid[f] == old(valid)[f]
    {
      MergeKeepsFields(values, m);
      values := values + AsMap(m);
      Validate(true, SetValuesSelection(m), env);
    }

    /** `setInitialValues(m)`: merge `m` into the initial values; nothing else changes. */
    method SetInitialValues(m: Patch)
      requires Valid()
      requires KeysOf(m) <= defs.Keys
      modifies this
      ensures Valid()
      ensures initialValues == old(initialValues) + AsMap(m)
      ensures values == old(values) && errors == old(errors) && valid == old(valid) && locale == old(locale)
    {
      initialValues := initialValues + AsMap(m);
    }

    /**
     * `reset()`: the values become a copy of the initial values, every error
     * is cleared, then a silent pass over all fields recomputes the flags.
     */
    method Reset(env: Globals)
      requires Valid() && env.Valid()
      modifies this
      ensures Valid()
      ensures values == old(initialValues) && initialValues == old(initialValues) && locale == old(locale)
      ensures forall f :: f in defs ==> errors[f] == None
      ensures valid == ValidatedFlags(defs, env.Unbound(), All, values, old(valid))
      ensures !HasModified()
    {
      values := initialValues;
      errors := InitialErrors(defs);
      Validate(true, All, env);
      SilentValidationKeepsErrorsCleared(defs, env.Unbound(), All, values);
    }

    /** `bind[field].onBlur()`. */
    method BindOnBlur(field: Field, env: Globals)
      requires Valid() && env.Valid()
      requires field in defs
      modifies this
      ensures Valid()
      ensures values == old(values) && initialValues == old(initialValues) && locale == old(locale)
      ensures errors == ValidatedErrors(defs, env.Unbound(), false, Include([field]), old(values), old(errors))
      ensures valid == ValidatedFlags(defs, env.Unbound(), Include([field]), old(values), old(valid))
    {
      OnBlur(field, env);
    }

    /** `bind[field].onChange(v)`: `onChange({[field]: v})`. */
    method BindOnChange(field: Field, v: string, env: Globals)
      requires Valid() && env.Valid()
      requires field in defs
      modifies this
      ensures Valid()
      ensures values == old(values)[field := v]
      ensures initialValues == old(initialValues) && locale == old(locale)
      ensures errors == ValidatedErrors(defs, env.Unbound(), true, Include([field]), values, old(errors))
      ensures valid == ValidatedFlags(defs, env.Unbound(), Include([field]), values, old(valid))
    {
      assert KeysOf([(field, v)]) == {field};
      assert AsMap([(field, v)]) == map[field := v];
      OnChange([(field, v)], env);
    }
  }
}
