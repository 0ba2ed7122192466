# zustand-forms, modelled in Dafny

This project models the core of zustand-forms. That library is a small form-state container with two built-in field validators and a localized message lookup.

- `createFormValidator(form, settings)` takes a map of field definitions (`required`, `rules`, `initialValue`). It builds a store holding five pieces of state:
  - `locale`
  - `values` and `initialValues` (field → string)
  - `errors` (field → message or null)
  - `valid` (field → bool)
- The store's operations are `validate`, `onBlur`, `onChange`, `setValues`, `setInitialValues`, `reset`, `setLocale` and the `bind` forwarders. Its queries are `isValid` and `hasModified`.
- `requiredValidator` and `emailValidator` answer `true` or a localized error message.
- `_` looks a message alias up in the locale catalog. The locale it uses is the receiver's locale, else the process-wide default slot written by `setDefaultLocale`, else `en`.

The project has four files:

- `messages.dfy`: the `Optional` module, and module `Messages`. `Messages` holds the catalog (a map from locale code to a `Localization` record of both messages), the lookup `Translate` with its fallback chain, and the class `Globals`, which holds the default-locale slot.
- `validators.dfy`, module `Validators`: the two validators. A validator is a total function of the ambient `Context` and the field value. The e-mail pattern is stated as a positional predicate (`EmailShape`) and decided by a scan proved equivalent to it.
- `form_spec.dfy`, module `FormSpec`: the pure part of the store, written as functions. It covers:
  - locale resolution at construction and the initial-state builders
  - the validator list of a field and the short-circuiting run
  - the state one `validate` pass produces (`ValidatedErrors`, `ValidatedFlags`)
  - partial maps (`Patch`, merged with the last write winning)
  - the queries, and the lemmas stating what a pass does
- `form_store.dfy`, module `FormStore`: the store as the class `Form`. Its map fields are updated in place one field at a time, as each zustand `set` does. Every method is proved against the `FormSpec` functions.

In the store, the validators run in the context of an undefined receiver, because the store's methods are module-level arrow functions. So their messages come from the default slot or from `en`, and never from the store's `locale`.

Details of the code that the model keeps:

- src/types.ts:8 declares a validator as `(v, form)`, but src/index.ts:247 passes only the value. A `Validator` here takes the value and the ambient context, never the form.
- The default slot `window.___zustand_forms__default_locale` is `undefined` until `setDefaultLocale` writes it (src/utils.ts:11, src/index.ts:300-302). `Globals` starts with the slot unset, and the lookup then falls back to `en`.
- `setDefaultLocale` returns its argument unchanged (src/index.ts:300-302).

## Model

| member | source | states |
|---|---|---|
| Messages.ResolveLocale | src/utils.ts:11 | `this?.locale \|\| <default slot> \|\| 'en'`: the result is never empty, and it is `en`, the receiver's locale or the slot's content |
| Messages.Translate | src/utils.ts:9-12 | `_(alias)` is the catalog entry of the resolved locale for that alias, untransformed; the `Context` type guarantees the resolved locale is in the catalog |
| Messages.ReceiverLocaleWins | src/utils.ts:11 | a truthy receiver locale decides the entry, whatever the default slot holds |
| Messages.DefaultLocaleUsed | src/utils.ts:11 | with no receiver locale, a truthy default slot decides the entry |
| Messages.EnglishFallback | src/utils.ts:11 | with neither a receiver locale nor a default, the locale is `en` and the English entry is returned |
| Messages.Globals.constructor | src/utils.ts:11 | the default slot starts unset and the catalog is the one given |
| Messages.Globals.SetDefaultLocale | src/index.ts:300-302 | writes the slot and returns the locale; afterwards every alias looked up with an undefined receiver yields that locale's entry |
| Validators.RequiredValidator | src/validators.ts:8-11 | passes iff the value is non-empty (no trimming); a failure carries exactly the `field_required_error` message |
| Validators.MatchesEmailPatternIffShape | src/validators.ts:15 | the scan accepts a value iff it has an `@` at some i ≥ 1 and a `.` at some j with i+2 ≤ j ≤ length−2, and no line terminator |
| Validators.EmailValidator | src/validators.ts:13-16 | passes iff the value has the e-mail shape above; a failure carries exactly the `invalid_email_error` message |
| Validators.EmailImpliesRequired | src/validators.ts:8-16 | every accepted e-mail address has at least 5 characters and so passes `requiredValidator` |
| Validators.EmailExamples | src/validators.ts:15 | `a@b.c` passes; `a@b` fails with the e-mail message |
| Validators.RequiredExamples | src/validators.ts:10 | `""` fails with the required message; `" "` and `"x"` pass |
| FormSpec.LanguagePrefix | src/index.ts:142 | `split('-')[0]`: a prefix of the input containing no `-`, followed in the input by `-` unless it is the whole input |
| FormSpec.FormLocale | src/index.ts:142-145 | the store's locale is always an available locale |
| FormSpec.SettingsLocaleWins | src/index.ts:142-145 | a truthy `settings.locale` is used if available, else `en` |
| FormSpec.NavigatorLanguageUsed | src/index.ts:142-145 | without settings, the browser language's prefix before `-` is used if available, else `en` |
| FormSpec.NoLocaleGivesEnglish | src/index.ts:142-145 | with no truthy settings locale and no browser language (or one whose prefix is empty), the locale is `en` |
| FormSpec.FormLocaleExamples | src/index.ts:142-145 | browser language `ru-RU` selects `ru`; an empty settings locale with no browser language gives `en` |
| FormSpec.InitialValues | src/index.ts:147-152 | `getInitialValues()`: one entry per defined field, holding `initialValue \|\| ''` |
| FormSpec.InitialErrors | src/index.ts:155-160 | `getInitialErrors()`: one null entry per defined field |
| FormSpec.InitialValidFlags | src/index.ts:162-167 | `getInitialValidFlags()`: one false entry per defined field |
| FormSpec.FreshFormNotValid | src/index.ts:162-167 | the initial flags cover every field, and a fresh form with any field is not valid |
| FormSpec.FieldValidators | src/index.ts:232-243 | the list `[requiredValidator if required] + rules`; it is non-empty, so the field is validated, iff the field is required or has rules |
| FormSpec.RunValidators | src/index.ts:244-258 | the inner loop as a recursion: the first validator that does not pass decides the outcome; its meaning is stated by `RunValidatorsFirstFailure` |
| FormSpec.RunValidatorsFirstFailure | src/index.ts:244-258 | the run passes iff every validator passes; otherwise it answers the outcome of the first failing validator, all earlier ones having passed |
| FormSpec.Include | src/index.ts:227 | an empty `include` selects every field; a non-empty one selects exactly its members |
| FormSpec.ValidatedErrors | src/index.ts:223-268 | `errors` after one `validate(silent, include)` pass; keyed by the defined fields; its meaning is stated by the lemmas below |
| FormSpec.ValidatedFlags | src/index.ts:223-268 | `valid` after one `validate` pass; keyed by the defined fields; its meaning is stated by the lemmas below |
| FormSpec.ValidatedFieldOutcome | src/index.ts:244-265 | for a selected field with validators: its flag is set iff every validator passes; its error is non-null iff the pass is not silent and the flag is clear, and it is then the first failing validator's message |
| FormSpec.UntargetedUnchanged | src/index.ts:227-243 | a field outside the selection, or without validators, keeps its error and its flag |
| FormSpec.SilentValidationSurfacesNothing | src/index.ts:252-264 | a silent pass never makes an error non-null: each error is cleared or kept |
| FormSpec.SilentValidationIdempotent | src/index.ts:223-268 | two silent passes over unchanged values leave the errors and flags of one |
| FormSpec.SilentValidationKeepsErrorsCleared | src/index.ts:184-191 | a silent pass over all-null errors leaves them all null |
| FormSpec.EmptyRequiredFailsFirst | src/index.ts:234-235 | a required field with an empty value fails with the required message whatever its rules |
| FormSpec.BlurOnEmptyRequired | src/index.ts:201 | blurring an empty required field surfaces the required message and clears its flag |
| FormSpec.ChangeOnRequiredField | src/index.ts:203-207 | a silent pass over a rule-less required field with a non-empty value clears its error and sets its flag |
| FormSpec.AsMap | src/index.ts:204 | a partial map's object has exactly its keys, each bound to the value written last |
| FormSpec.ChangeSelection | src/index.ts:206 | `onChange` selects exactly the first key of the partial map, and no field when the map is empty |
| FormSpec.SetValuesSelection | src/index.ts:294 | `setValues` selects every key of the partial map, or every field when the map is empty |
| FormSpec.AllValid | src/index.ts:175-182 | `isValid` over the flags: every defined field is flagged `true` |
| FormSpec.Modified | src/index.ts:277-284 | `hasModified` over the maps: some field's value differs from its initial value |
| FormSpec.ModifiedIffDiffer | src/index.ts:277-284 | over one key set, some value differs from its initial value iff the two maps differ |
| FormSpec.SignupVerdicts | src/index.ts:232-258 | a required name `Bob` and a required e-mail `bob@x.com` with the e-mail rule both pass every validator |
| FormSpec.SignupFormExample | src/index.ts:223-268 | with `name` required and `email` required with the e-mail rule, `Bob` / `bob@x.com` pass a full validation: every flag is set and every error is null |
| FormStore.Form.constructor | src/index.ts:141-199 | the locale is the resolved one; values and initial values are `initialValue \|\| ''` for every field; errors are null and flags false; the form is not modified |
| FormStore.Form.SetLocale | src/index.ts:173 | only the locale changes |
| FormStore.Form.IsValid | src/index.ts:175-182 | true iff every defined field is flagged valid; so a form with a field lacking validators is never valid |
| FormStore.Form.HasModified | src/index.ts:277-284 | true iff the values differ from the initial values |
| FormStore.Form.RunInOrder | src/index.ts:244-258 | the inner loop reports an error iff the run fails, with the first failing validator's message |
| FormStore.Form.ValidateField | src/index.ts:227-265 | one iteration: the field's error and flag become what the pass gives them, and nothing else changes |
| FormStore.Form.Validate | src/index.ts:223-268 | values, initial values and locale are unchanged; errors and flags become those of one pass over the old values; the store invariant is kept |
| FormStore.Form.OnBlur | src/index.ts:201 | a non-silent pass selecting only that field |
| FormStore.Form.OnChange | src/index.ts:203-207 | values become the old values overridden by the partial map; a silent pass selects its first key only; every other field keeps its error and flag |
| FormStore.Form.SetValues | src/index.ts:286-295 | values are merged as for `onChange`; a silent pass selects every key of the map (all fields for an empty map); the other fields keep their error and flag |
| FormStore.Form.SetInitialValues | src/index.ts:270-275 | initial values are merged with the partial map; nothing else changes |
| FormStore.Form.Reset | src/index.ts:184-191 | values become the initial values, every error is null, flags are those of a silent pass over all fields, and the form is not modified |
| FormStore.Form.BindOnBlur | src/index.ts:209-215 | `bind` has an entry for each defined field only; `bind[f].onBlur()` is `onBlur(f)` |
| FormStore.Form.BindOnChange | src/index.ts:216 | `bind[f].onChange(v)` is `onChange({f: v})`: the value of `f` becomes `v` and only `f` is revalidated, silently |

## Left out

- zustand itself (`create`, `set`, `get`, subscriptions). Each `set` is a plain update of the class's fields, so subscribers and re-rendering are not modelled.
- The host objects are parameters. `navigator.language` is a constructor argument. The `window` default-locale slot is the `Globals` object passed to the operations that validate.
- The `bind[f].value` getter is not a member: it is a plain read of `values[f]`.
- The regular-expression engine is not modelled. `/^.+@.+\..+$/` is replaced by the positional predicate it denotes.
- The catalog's contents are abstract: any map holding at least `en` and `ru` with both messages each. The locale modules and `AVAILABLE_LOCALES` are not part of this model beyond being the catalog's key set.
- The compiled copies under `dist/` and the type-only files are not modelled.
- Validators are total functions returning pass or a message. Validators that throw, read other state, or return values other than `true` or a string are not modelled.
- `Object.keys` puts integer-like keys first in ascending order. A `Patch` lists its keys in the order given, and that reordering is not modelled. It matters only for which key `onChange` revalidates.
- `initialValue` is an optional string. Other falsy values coerced by `|| ''` are not modelled.
- FormStore.Form.OnChange requires the partial map's keys to be defined fields, as its TypeScript type does (src/index.ts:76). At run time the source takes any key and merges it into `values` (src/index.ts:204). If the unknown key comes first, `validate` reads `form[key].required` on it (src/index.ts:234) and throws a TypeError. Otherwise the key is skipped (src/index.ts:227), stays in `values`, and `hasModified` then reports a change (src/index.ts:281-283). The model captures neither behaviour.
- FormStore.Form.SetValues requires the same, as its type does (src/index.ts:96). With an unknown key the source merges it (src/index.ts:287-292), and the pass over `Object.keys(m)` (src/index.ts:294) reaches it and throws at src/index.ts:234. The model does not capture that exception.
- FormStore.Form.SetInitialValues requires the same, as its type does (src/index.ts:83). The source merges an unknown key into `initialValues` without throwing (src/index.ts:270-275). A later `reset` copies it into `values` (src/index.ts:186), and its pass over all fields then throws (src/index.ts:190, 234). The model does not capture that delayed failure.
- FormStore.Form.BindOnBlur and FormStore.Form.BindOnChange require a defined field. `bind[x]` is undefined for any other `x` (src/index.ts:209-214), so the source throws a TypeError there.
- Messages.Context: the lookup is modelled only when its resolved locale is in the catalog. Any other locale makes `locale[x][alias]` throw at src/utils.ts:11, and that exception is not modelled. Messages.Globals.SetDefaultLocale requires a catalog locale for the same reason; its parameter type `Locale` (src/index.ts:300, src/locale/type.ts:8) names exactly the catalog's locales.
