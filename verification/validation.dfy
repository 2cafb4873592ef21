/**
 The decision of `FormValidator.validateField`: from a field's id, value,
 input type, `required` attribute and checked state to the error it is
 shown, or none. The effect on the page is in `ContactForm`.
 */
module FieldValidation {
  import opened Options
  import opened JsText
  import opened FieldPatterns

  /** The keys of the script's error-message table. */
  datatype ErrorKind = Required | BadName | BadEmail | BadPhone | BadMessage | Privacy

  /** The localized text for each key; every one is non-empty, so it is truthy. */
  function MessageText(e: ErrorKind): (t: string)
    ensures t != []
  {
    match e
    case BadName => "Имя должно содержать от 2 до 50 символов и может включать буквы, пробелы, дефисы и апострофы"
    case BadEmail => "Пожалуйста, введите корректный email адрес"
    case BadPhone => "Номер телефона должен содержать от 10 до 20 цифр"
    case BadMessage => "Сообщение должно содержать минимум 10 символов"
    case Privacy => "Необходимо согласие с политикой конфиденциальности"
    case Required => "Это поле обязательно для заполнения"
  }

  /** What `validateField` reads from an input, textarea or select. */
  datatype FieldInput = FieldInput(id: string, value: string, kind: string, required: bool, checked: bool)

  /** Which pattern a non-empty value is checked against. */
  datatype Role = NameRole | EmailRole | PhoneRole | MessageRole | NoRole

  /** The role dispatch, first match wins: name, then email, then phone, then message. */
  function RoleOf(id: string, kind: string): (r: Role)
    ensures r == NameRole <==> Contains(id, "name")
    ensures r == EmailRole <==> !Contains(id, "name") && (Contains(id, "email") || kind == "email")
    ensures r == PhoneRole <==> !Contains(id, "name") && !Contains(id, "email") && kind != "email"
                                && (Contains(id, "phone") || kind == "tel")
    ensures r == MessageRole <==> !Contains(id, "name") && !Contains(id, "email") && kind != "email"
                                  && !Contains(id, "phone") && kind != "tel" && Contains(id, "message")
    ensures r == NoRole <==> !Contains(id, "name") && !Contains(id, "email") && !Contains(id, "phone")
                             && !Contains(id, "message") && kind != "email" && kind != "tel"
  {
    if Contains(id, "name") then NameRole
    else if Contains(id, "email") || kind == "email" then EmailRole
    else if Contains(id, "phone") || kind == "tel" then PhoneRole
    else if Contains(id, "message") then MessageRole
    else NoRole
  }

  /** The pattern test of one role on a trimmed, non-empty value. */
  function RoleCheck(m: Matchers, role: Role, v: string): Option<ErrorKind> {
    match role
    case NameRole => if m.name(v) then None else Some(BadName)
    case EmailRole => if m.email(v) then None else Some(BadEmail)
    case PhoneRole => if PhonePattern(v) then None else Some(BadPhone)
    case MessageRole => if MessagePattern(v) then None else Some(BadMessage)
    case NoRole => None
  }

  /** A required checkbox that is not ticked: the case that ends in the privacy message. */
  predicate IsUnacceptedConsent(f: FieldInput) {
    f.kind == "checkbox" && f.required && !f.checked
  }

  /**
   The error `validateField` settles on, `None` for the empty message. The
   required test comes first, the role test runs only on a non-empty trimmed
   value, and the consent test overrides both. Each error is issued only for
   its own cause.
   */
  function Decide(m: Matchers, f: FieldInput): (r: Option<ErrorKind>)
    ensures r == Some(Privacy) <==> IsUnacceptedConsent(f)
    ensures r == Some(Required) ==> f.required && Trim(f.value) == []
    ensures r == Some(BadName) ==> RoleOf(f.id, f.kind) == NameRole && Trim(f.value) != [] && !m.name(Trim(f.value))
    ensures r == Some(BadEmail) ==> RoleOf(f.id, f.kind) == EmailRole && Trim(f.value) != [] && !m.email(Trim(f.value))
    ensures r == Some(BadPhone) ==> RoleOf(f.id, f.kind) == PhoneRole && Trim(f.value) != [] && !PhonePattern(Trim(f.value))
    ensures r == Some(BadMessage) ==> RoleOf(f.id, f.kind) == MessageRole && Trim(f.value) != [] && !MessagePattern(Trim(f.value))
  {
    var v := Trim(f.value);
    var verdict :=
      if f.required && v == [] then Some(Required)
      else if v != [] then RoleCheck(m, RoleOf(f.id, f.kind), v)
      else None;
    if IsUnacceptedConsent(f) then Some(Privacy) else verdict
  }

  /** A required field whose value trims to nothing gets the required message, and no pattern is consulted. */
  lemma RequiredEmptyGetsRequired(m: Matchers, m': Matchers, f: FieldInput)
    requires f.required && AllTrimmable(f.value) && !IsUnacceptedConsent(f)
    ensures Decide(m, f) == Some(Required)
    ensures Decide(m', f) == Decide(m, f)
  {
    TrimEmptyIff(f.value);
  }

  /** A field that is not required and whose value trims to nothing passes every check. */
  lemma OptionalEmptyPasses(m: Matchers, f: FieldInput)
    requires !f.required && AllTrimmable(f.value)
    ensures Decide(m, f) == None
  {
    TrimEmptyIff(f.value);
  }

  /** Outside the consent override, a non-empty value gets exactly its role's verdict. */
  lemma NonEmptyGetsRoleVerdict(m: Matchers, f: FieldInput)
    requires !AllTrimmable(f.value) && !IsUnacceptedConsent(f)
    ensures Decide(m, f) == RoleCheck(m, RoleOf(f.id, f.kind), Trim(f.value))
  {
    TrimEmptyIff(f.value);
  }

  /**
   An id containing "name" is checked against the name pattern only, whatever
   else the id contains and whatever the input type; the email test is never
   consulted.
   */
  lemma NameComesFirst(m: Matchers, email': string -> bool, f: FieldInput)
    requires Contains(f.id, "name") && !AllTrimmable(f.value) && !IsUnacceptedConsent(f)
    ensures Decide(m, f) == (if m.name(Trim(f.value)) then None else Some(BadName))
    ensures Decide(Matchers(m.name, email'), f) == Decide(m, f)
  {
    TrimEmptyIff(f.value);
  }

  /** Without "name" in the id, an email id or `type="email"` is checked against the email pattern only. */
  lemma EmailBeforePhone(m: Matchers, name': string -> bool, f: FieldInput)
    requires !Contains(f.id, "name") && (Contains(f.id, "email") || f.kind == "email")
    requires !AllTrimmable(f.value) && !IsUnacceptedConsent(f)
    ensures Decide(m, f) == (if m.email(Trim(f.value)) then None else Some(BadEmail))
    ensures Decide(Matchers(name', m.email), f) == Decide(m, f)
  {
    TrimEmptyIff(f.value);
  }

  /** Neither name nor email: a phone id or `type="tel"` is checked against the phone pattern only. */
  lemma PhoneBeforeMessage(m: Matchers, m': Matchers, f: FieldInput)
    requires !Contains(f.id, "name") && !Contains(f.id, "email") && f.kind != "email"
    requires Contains(f.id, "phone") || f.kind == "tel"
    requires !AllTrimmable(f.value) && !IsUnacceptedConsent(f)
    ensures Decide(m, f) == (if PhonePattern(Trim(f.value)) then None else Some(BadPhone))
    ensures Decide(m', f) == Decide(m, f)
  {
    TrimEmptyIff(f.value);
  }

  /** The message pattern applies last, to an id containing "message" and no earlier role. */
  lemma MessageLast(m: Matchers, m': Matchers, f: FieldInput)
    requires RoleOf(f.id, f.kind) == MessageRole
    requires !AllTrimmable(f.value) && !IsUnacceptedConsent(f)
    ensures Contains(f.id, "message")
    ensures Decide(m, f) == (if MessagePattern(Trim(f.value)) then None else Some(BadMessage))
    ensures Decide(m', f) == Decide(m, f)
  {
    TrimEmptyIff(f.value);
  }

  /** A field that matches no role gets no pattern check: it passes unless it is required and empty. */
  lemma NoRoleNoCheck(m: Matchers, f: FieldInput)
    requires RoleOf(f.id, f.kind) == NoRole && !IsUnacceptedConsent(f)
    ensures Decide(m, f) == (if f.required && AllTrimmable(f.value) then Some(Required) else None)
  {
    TrimEmptyIff(f.value);
  }
}
