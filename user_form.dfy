/**
 * The create-user form controller: the field sanitiser, the two pattern
 * checks, the two-pass validator and the open/close/submit state.
 */
module UserForm {
  import opened Text

  /** The names of the form's eight inputs. */
  datatype FieldKey = Name | LastName | Email | CellPhone | Password | RepeatPassword | Program | Rol

  /** The draft being edited (`formData`). */
  datatype FormData = FormData(
    name: string, lastName: string, email: string, cellPhone: string,
    password: string, repeatPassword: string, program: string, rol: string)

  /** One message per field; "" means the field is valid (`formErrors`). */
  datatype FormErrors = FormErrors(
    name: string, lastName: string, email: string, cellPhone: string,
    password: string, repeatPassword: string, program: string, rol: string)

  const EmptyForm := FormData("", "", "", "", "", "", "", "")
  const NoErrors := FormErrors("", "", "", "", "", "", "", "")

  const EmptyFieldMsg := "Este campo no puede estar vacío"
  const EmailMsg := "Por favor, ingrese un correo electrónico válido"
  const PhoneMsg := "Por favor, ingrese un número de teléfono válido"
  const PasswordLengthMsg := "La contraseña debe tener entre 8 y 30 caracteres"
  const PasswordMatchMsg := "Las contraseñas deben coincidir"
  const ProgramMsg := "Seleccione un programa"
  const RolMsg := "Seleccione un rol"

  const PasswordMin := 8
  const PasswordMax := 30
  const PhoneMaxDigits := 10

  function Get(d: FormData, k: FieldKey): string {
    match k
    case Name => d.name
    case LastName => d.lastName
    case Email => d.email
    case CellPhone => d.cellPhone
    case Password => d.password
    case RepeatPassword => d.repeatPassword
    case Program => d.program
    case Rol => d.rol
  }

  /** The message `e` holds for field `k`. */
  function ErrorOf(e: FormErrors, k: FieldKey): string {
    match k
    case Name => e.name
    case LastName => e.lastName
    case Email => e.email
    case CellPhone => e.cellPhone
    case Password => e.password
    case RepeatPassword => e.repeatPassword
    case Program => e.program
    case Rol => e.rol
  }

  /** The draft with one field replaced: field `k` becomes `v`, every other field stays. */
  function Update(d: FormData, k: FieldKey, v: string): (r: FormData)
    ensures Get(r, k) == v
    ensures forall k' | k' != k :: Get(r, k') == Get(d, k')
  {
    match k
    case Name => d.(name := v)
    case LastName => d.(lastName := v)
    case Email => d.(email := v)
    case CellPhone => d.(cellPhone := v)
    case Password => d.(password := v)
    case RepeatPassword => d.(repeatPassword := v)
    case Program => d.(program := v)
    case Rol => d.(rol := v)
  }

  // ---------------------------------------------------------------------
  // Phone sanitiser

  /** What `handleChange` stores for the phone: the input's digits, cut to ten. */
  function SanitizePhone(s: string): (r: string)
    ensures AllDigits(r) && |r| <= PhoneMaxDigits
    ensures r <= StripNonDigits(s)
    ensures |r| == if |StripNonDigits(s)| < PhoneMaxDigits then |StripNonDigits(s)| else PhoneMaxDigits
  {
    SliceTo(StripNonDigits(s), PhoneMaxDigits)
  }

  /** Digits already within the bound pass through unchanged. */
  lemma SanitizeKeepsValidPhone(s: string)
    requires AllDigits(s) && |s| <= PhoneMaxDigits
    ensures SanitizePhone(s) == s
  {
  }

  /** Sanitising twice is sanitising once. */
  lemma SanitizeIdempotent(s: string)
    ensures SanitizePhone(SanitizePhone(s)) == SanitizePhone(s)
  {
    SanitizeKeepsValidPhone(SanitizePhone(s));
  }

  /** The first ten digits are fixed by a prefix: typing further characters
      after a full number never changes what is stored. */
  lemma {:induction false} SanitizeIgnoresTail(s: string, t: string)
    requires |StripNonDigits(s)| >= PhoneMaxDigits
    ensures SanitizePhone(s + t) == SanitizePhone(s)
  {
    StripNonDigitsAppend(s, t);
    assert (StripNonDigits(s) + StripNonDigits(t))[..PhoneMaxDigits] == StripNonDigits(s)[..PhoneMaxDigits];
  }

  /** Digits beyond the tenth are cut off: twelve digits typed in a row
      are stored as the first ten. */
  lemma SanitizeCutsAtTen()
    ensures SanitizePhone("123456789012") == "1234567890"
  {
    var a, b := "1234567890", "12";
    assert AllDigits(a + b);
    assert a + b == "123456789012";
    assert (a + b)[..PhoneMaxDigits] == a;
  }

  // ---------------------------------------------------------------------
  // Pattern checks

  /** One run of `[^\s@]+`. */
  predicate EmailPart(t: string) {
    |t| > 0 && forall k | 0 <= k < |t| :: !IsWhitespace(t[k]) && t[k] != '@'
  }

  /** `s` splits at an `@` (index `i`) and a later `.` (index `j`) into
      three runs of `[^\s@]+`. */
  predicate EmailSplit(s: string, i: int, j: int) {
    0 <= i < j < |s| && s[i] == '@' && s[j] == '.'
    && EmailPart(s[..i]) && EmailPart(s[i + 1..j]) && EmailPart(s[j + 1..])
  }

  /** `/^[^\s@]+@[^\s@]+\.[^\s@]+$/.test(s)`: the address splits into the
      pattern's three runs, which is the plain-words description. */
  predicate IsValidEmail(s: string): (b: bool)
    ensures b <==> WellFormedAddress(s)
  {
    EmailSplitIffWellFormed(s);
    exists i, j {:trigger EmailSplit(s, i, j)} | 0 <= i < j < |s| :: EmailSplit(s, i, j)
  }

  /** `/^\d{0,10}$/.test(s)`: at most ten ASCII digits, "" included. These are
      exactly the values the phone sanitiser leaves unchanged. */
  predicate IsValidPhoneNumber(s: string): (b: bool)
    ensures b && s != [] ==> !Blank(s)
  {
    if |s| <= PhoneMaxDigits && AllDigits(s) then
      assert s != [] ==> !IsWhitespace(s[0]);
      true
    else false
  }

  /** The values the phone pattern accepts are exactly the ones the
      keystroke sanitiser leaves unchanged. */
  lemma PhonePatternIsSanitizerFixpoint(s: string)
    ensures IsValidPhoneNumber(s) <==> SanitizePhone(s) == s
  {
    if IsValidPhoneNumber(s) {
      SanitizeKeepsValidPhone(s);
    }
  }

  /** `i` is the only index of `s` holding an `@`. */
  predicate OnlyAtSign(s: string, i: int) {
    0 <= i < |s| && s[i] == '@' && forall k | 0 <= k < |s| && s[k] == '@' :: k == i
  }

  /** An address in plain words: no whitespace, exactly one `@`, something
      before it, and after it a `.` that is neither first nor last. */
  predicate WellFormedAddress(s: string) {
    && (forall k | 0 <= k < |s| :: !IsWhitespace(s[k]))
    && exists i | 0 < i < |s| && OnlyAtSign(s, i) :: exists j | i + 1 < j < |s| - 1 :: s[j] == '.'
  }

  /** The e-mail pattern, read as a regular expression, and the plain-words
      description accept the same strings. */
  lemma EmailSplitIffWellFormed(s: string)
    ensures (exists i, j {:trigger EmailSplit(s, i, j)} | 0 <= i < j < |s| :: EmailSplit(s, i, j))
      <==> WellFormedAddress(s)
  {
    if exists i, j {:trigger EmailSplit(s, i, j)} | 0 <= i < j < |s| :: EmailSplit(s, i, j) {
      var i, j :| EmailSplit(s, i, j);
      assert EmailSplit(s, i, j);
      forall k | 0 <= k < |s| ensures !IsWhitespace(s[k]) && (k != i ==> s[k] != '@') {
        if k < i { assert s[k] == s[..i][k]; }
        else if i < k < j { assert s[k] == s[i + 1..j][k - i - 1]; }
        else if j < k { assert s[k] == s[j + 1..][k - j - 1]; }
      }
      assert OnlyAtSign(s, i);
      assert i + 1 < j < |s| - 1;
    }
    if WellFormedAddress(s) {
      var i :| 0 < i < |s| && OnlyAtSign(s, i) && exists j | i + 1 < j < |s| - 1 :: s[j] == '.';
      var j :| i + 1 < j < |s| - 1 && s[j] == '.';
      assert EmailPart(s[..i]);
      assert EmailPart(s[i + 1..j]);
      assert EmailPart(s[j + 1..]);
      assert EmailSplit(s, i, j);
    }
  }

  // ---------------------------------------------------------------------
  // Validator

  /** The first-pass "required" test: `msg` when the trimmed value is empty,
      else "" — that is, `msg` exactly for a blank value. */
  function RequiredCheck(v: string, msg: string): (r: string)
    ensures r == if Blank(v) then msg else ""
  {
    TrimEmptyIffBlank(v);
    if Trim(v) == "" then msg else ""
  }

  /** The first-pass phone test: blank, else the pattern. A non-blank value
      passes exactly when it is at most ten ASCII digits. */
  function PhoneCheck(v: string): (r: string)
    ensures Blank(v) ==> r == EmptyFieldMsg
    ensures !Blank(v) ==> r == if AllDigits(v) && |v| <= PhoneMaxDigits then "" else PhoneMsg
  {
    TrimEmptyIffBlank(v);
    if Trim(v) == "" then EmptyFieldMsg
    else if IsValidPhoneNumber(v) then ""
    else PhoneMsg
  }

  /** `validateForm`: the first pass fills every field, then the password
      and repeat-password entries are overwritten in that order, so the
      second pass alone decides whether its two messages appear. */
  function ValidateForm(d: FormData): (r: FormErrors)
    ensures r.password == PasswordLengthMsg <==> !(PasswordMin <= |d.password| <= PasswordMax)
    ensures r.repeatPassword == PasswordMatchMsg <==> d.password != d.repeatPassword
  {
    var first := FormErrors(
      name := RequiredCheck(d.name, EmptyFieldMsg),
      lastName := RequiredCheck(d.lastName, EmptyFieldMsg),
      email := if IsValidEmail(d.email) then "" else EmailMsg,
      cellPhone := PhoneCheck(d.cellPhone),
      password := RequiredCheck(d.password, EmptyFieldMsg),
      repeatPassword := RequiredCheck(d.repeatPassword, EmptyFieldMsg),
      program := RequiredCheck(d.program, ProgramMsg),
      rol := RequiredCheck(d.rol, RolMsg));
    var afterLength :=
      // validator.isLength(password, { min: 8, max: 30 }), counting characters
      if !(PasswordMin <= |d.password| <= PasswordMax) then first.(password := PasswordLengthMsg) else first;
    if d.password != d.repeatPassword then afterLength.(repeatPassword := PasswordMatchMsg) else afterLength
  }

  /** The submit gate: every message is the empty string. */
  predicate AllClear(e: FormErrors): (b: bool)
    ensures b <==> e == NoErrors
  {
    && e.name == "" && e.lastName == "" && e.email == "" && e.cellPhone == ""
    && e.password == "" && e.repeatPassword == "" && e.program == "" && e.rol == ""
  }

  /** Name, last name, program and role are rejected exactly when blank. */
  lemma RequiredFieldErrors(d: FormData)
    ensures ValidateForm(d).name == if Blank(d.name) then EmptyFieldMsg else ""
    ensures ValidateForm(d).lastName == if Blank(d.lastName) then EmptyFieldMsg else ""
    ensures ValidateForm(d).program == if Blank(d.program) then ProgramMsg else ""
    ensures ValidateForm(d).rol == if Blank(d.rol) then RolMsg else ""
  {
  }

  /** The e-mail message is empty exactly for a well-formed address. */
  lemma EmailError(d: FormData)
    ensures ValidateForm(d).email == if WellFormedAddress(d.email) then "" else EmailMsg
  {
    EmailSplitIffWellFormed(d.email);
  }

  /** A blank phone is "empty"; otherwise it is accepted exactly when it is
      at most ten ASCII digits. */
  lemma PhoneError(d: FormData)
    ensures Blank(d.cellPhone) ==> ValidateForm(d).cellPhone == EmptyFieldMsg
    ensures !Blank(d.cellPhone) ==>
      (ValidateForm(d).cellPhone == if AllDigits(d.cellPhone) && |d.cellPhone| <= PhoneMaxDigits then "" else PhoneMsg)
  {
  }

  /** Whatever the sanitiser stores, unless it is empty, passes the phone check. */
  lemma SanitizedPhoneAccepted(d: FormData, input: string)
    requires d.cellPhone == SanitizePhone(input) && d.cellPhone != ""
    ensures ValidateForm(d).cellPhone == ""
  {
    PhoneError(d);
    assert !IsWhitespace(d.cellPhone[0]);
  }

  /** The length check overrides the blank check, even for an empty password. */
  lemma PasswordError(d: FormData)
    ensures !(PasswordMin <= |d.password| <= PasswordMax) ==> ValidateForm(d).password == PasswordLengthMsg
    ensures PasswordMin <= |d.password| <= PasswordMax && Blank(d.password) ==> ValidateForm(d).password == EmptyFieldMsg
    ensures PasswordMin <= |d.password| <= PasswordMax && !Blank(d.password) ==> ValidateForm(d).password == ""
  {
  }

  /** A mismatch overrides the blank check; with a match only blankness counts. */
  lemma RepeatPasswordError(d: FormData)
    ensures d.repeatPassword != d.password ==> ValidateForm(d).repeatPassword == PasswordMatchMsg
    ensures d.repeatPassword == d.password ==>
      ValidateForm(d).repeatPassword == if Blank(d.repeatPassword) then EmptyFieldMsg else ""
  {
  }

  /** When the form passes validation, in field-by-field terms. */
  ghost predicate Acceptable(d: FormData) {
    && !Blank(d.name) && !Blank(d.lastName) && !Blank(d.program) && !Blank(d.rol)
    && WellFormedAddress(d.email)
    && 1 <= |d.cellPhone| <= PhoneMaxDigits && AllDigits(d.cellPhone)
    && PasswordMin <= |d.password| <= PasswordMax && !Blank(d.password)
    && d.repeatPassword == d.password
  }

  /** The submit gate opens exactly for an acceptable draft. */
  lemma {:induction false} AllClearIffAcceptable(d: FormData)
    ensures AllClear(ValidateForm(d)) <==> Acceptable(d)
  {
    RequiredFieldErrors(d);
    EmailError(d);
    PhoneError(d);
    PasswordError(d);
    RepeatPasswordError(d);
    if d.cellPhone != [] && AllDigits(d.cellPhone) {
      assert !IsWhitespace(d.cellPhone[0]);
    }
  }

  /** Any blank field is reported with a non-empty message. */
  lemma BlankFieldReported(d: FormData, k: FieldKey)
    requires Blank(Get(d, k))
    ensures ErrorOf(ValidateForm(d), k) != ""
    ensures !AllClear(ValidateForm(d))
  {
    RequiredFieldErrors(d);
    EmailError(d);
    PhoneError(d);
    PasswordError(d);
    RepeatPasswordError(d);
    if k == Email {
      assert Get(d, k) != [] ==> IsWhitespace(d.email[0]);
    }
  }

  /** A short password matched by its repeat: only the password is reported. */
  lemma ShortPasswordExample(d: FormData)
    requires d.password == "short" && d.repeatPassword == "short"
    ensures ValidateForm(d).password == PasswordLengthMsg
    ensures ValidateForm(d).repeatPassword == ""
  {
    RepeatPasswordError(d);
    assert !IsWhitespace(d.repeatPassword[0]);
  }

  // ---------------------------------------------------------------------
  // The component's state

  /** The phone in the draft is what the sanitiser can produce. */
  predicate PhoneSanitized(d: FormData) {
    IsValidPhoneNumber(d.cellPhone)
  }

  /** A draft that keeps the handlers' phone invariant passes the phone check
      as soon as the phone is not empty. */
  lemma PhoneSanitizedAccepted(d: FormData)
    requires PhoneSanitized(d) && d.cellPhone != ""
    ensures ValidateForm(d).cellPhone == ""
  {
    PhoneError(d);
    assert !IsWhitespace(d.cellPhone[0]);
  }

  class CreateUserForm {
    var showModal: bool
    var formSubmitted: bool
    var formErrors: FormErrors
    var formData: FormData
    /** The snapshots handed to `callback`, oldest first. */
    ghost var callbackCalls: seq<FormData>

    constructor ()
      ensures !showModal && !formSubmitted && formErrors == NoErrors && formData == EmptyForm
      ensures callbackCalls == []
      ensures PhoneSanitized(formData)
    {
      showModal, formSubmitted := false, false;
      formErrors, formData := NoErrors, EmptyForm;
      callbackCalls := [];
    }

    /** Opening clears the errors and the submitted flag, but keeps the draft. */
    method HandleModalShow()
      modifies this
      ensures showModal && !formSubmitted && formErrors == NoErrors
      ensures formData == old(formData) && callbackCalls == old(callbackCalls)
    {
      showModal := true;
      formSubmitted := false;
      formErrors := NoErrors;
    }

    /** Closing hides the dialog; the draft and the errors stay. */
    method HandleModalClose()
      modifies this
      ensures !showModal && !formSubmitted
      ensures formErrors == old(formErrors) && formData == old(formData)
      ensures callbackCalls == old(callbackCalls)
    {
      showModal := false;
      formSubmitted := false;
    }

    /** A picker's choice is stored as given. */
    method HandleSelectChange(field: FieldKey, selectedValue: string)
      modifies this
      ensures formData == Update(old(formData), field, selectedValue)
      ensures showModal == old(showModal) && formSubmitted == old(formSubmitted)
      ensures formErrors == old(formErrors) && callbackCalls == old(callbackCalls)
      ensures field != CellPhone && PhoneSanitized(old(formData)) ==> PhoneSanitized(formData)
    {
      formData := Update(formData, field, selectedValue);
    }

    /** A keystroke: the phone is sanitised, every other input is stored as typed. */
    method HandleChange(field: FieldKey, value: string)
      modifies this
      ensures formData == Update(old(formData), field, if field == CellPhone then SanitizePhone(value) else value)
      ensures showModal == old(showModal) && formSubmitted == old(formSubmitted)
      ensures formErrors == old(formErrors) && callbackCalls == old(callbackCalls)
      ensures PhoneSanitized(old(formData)) ==> PhoneSanitized(formData)
    {
      var stored := value;
      if field == CellPhone {
        stored := StripNonDigits(stored);
        stored := SliceTo(stored, PhoneMaxDigits);
      }
      formData := Update(formData, field, stored);
    }

    /** The accepted branch of a submit: close, hand the draft over, empty it. */
    method Deliver()
      modifies this
      ensures callbackCalls == old(callbackCalls) + [old(formData)]
      ensures formData == EmptyForm && !showModal && !formSubmitted
      ensures formErrors == old(formErrors)
    {
      HandleModalClose();
      callbackCalls := callbackCalls + [formData];
      formData := EmptyForm;
    }

    /** What a submit does once the messages are known: set the flag, store
        the messages, and deliver the draft when every message is empty. */
    method Settle(errors: FormErrors)
      modifies this
      ensures formErrors == errors
      ensures AllClear(errors) ==>
        && callbackCalls == old(callbackCalls) + [old(formData)]
        && formData == EmptyForm && !showModal && !formSubmitted
      ensures !AllClear(errors) ==>
        && callbackCalls == old(callbackCalls)
        && formData == old(formData) && showModal == old(showModal) && formSubmitted
    {
      formSubmitted := true;
      formErrors := errors;
      if AllClear(errors) {
        Deliver();
      }
    }

    /** Submit: validate; only an error-free draft reaches the callback,
        after which the dialog closes and the draft is emptied. */
    method SendResponse()
      modifies this
      ensures formErrors == ValidateForm(old(formData))
      ensures AllClear(formErrors) ==>
        && callbackCalls == old(callbackCalls) + [old(formData)]
        && formData == EmptyForm && !showModal && !formSubmitted
      ensures !AllClear(formErrors) ==>
        && callbackCalls == old(callbackCalls)
        && formData == old(formData) && showModal == old(showModal) && formSubmitted
      ensures PhoneSanitized(old(formData)) ==> PhoneSanitized(formData)
    {
      Settle(ValidateForm(formData));
    }
  }

  /** Dismissing and reopening the dialog brings the same draft back. */
  method ReopenKeepsDraft(form: CreateUserForm)
    modifies form
    ensures form.formData == old(form.formData) && form.showModal
    ensures form.formErrors == NoErrors && !form.formSubmitted
  {
    form.HandleModalClose();
    form.HandleModalShow();
  }

  /** A draft that passes validation is delivered exactly once, unchanged. */
  method SubmitAcceptable(form: CreateUserForm)
    requires Acceptable(form.formData)
    modifies form
    ensures form.callbackCalls == old(form.callbackCalls) + [old(form.formData)]
    ensures form.formData == EmptyForm && !form.showModal
    ensures AllClear(form.formErrors) && !form.formSubmitted
  {
    AllClearIffAcceptable(form.formData);
    form.SendResponse();
  }
}
