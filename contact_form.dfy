/** The contact form's state and event handlers: field edits, the consent
    checkbox, the challenge widget's token callbacks, the guarded submit, the
    arrival of the relay service's response and the reset five seconds after a
    success. The HTTP request is the `Posted` payload that `Submit` returns; its
    result arrives as the argument of `Outcome`; the five-second timer firing
    is a call of `Reset`. */
module Contact {

  const NameField := "Nombre completo"
  const EmailField := "Correo electrónico"
  const PhoneField := "Teléfono"
  const InsuranceField := "Tipo de seguro"
  const MessageField := "Mensaje adicional"

  /** The `name` attributes of the five inputs, which are also the keys of `formData`. */
  const FormFields: set<string> := {NameField, EmailField, PhoneField, InsuranceField, MessageField}

  /** The entries the request adds after the form fields. */
  const ReservedKeys: set<string> := {"_subject", "_captcha", "_template", "turnstile-token"}

  const Subject := "Nueva cotización de seguro desde tu landing"
  const SuccessMessage := "¡Mensaje enviado exitosamente! Te contactaremos pronto."
  const ErrorMessage := "Error al enviar el mensaje. Por favor intenta nuevamente."

  /** The initial and the post-reset `formData`: every field empty. */
  function EmptyForm(): (m: map<string, string>)
    ensures m.Keys == FormFields
    ensures forall f :: f in m ==> m[f] == ""
  {
    map[NameField := "", EmailField := "", PhoneField := "", InsuranceField := "", MessageField := ""]
  }

  datatype Status = Status(loading: bool, success: bool, error: bool, message: string)

  const Idle := Status(false, false, false, "")
  const Sending := Status(true, false, false, "")
  const Sent := Status(false, true, false, SuccessMessage)
  const Failed := Status(false, false, true, ErrorMessage)

  /** What `handleSubmit` does before awaiting the response: a warning dialog
      for missing consent, one for a missing challenge token, or the request. */
  datatype SubmitResult = ConsentRequired | VerificationRequired | Posted(payload: map<string, string>)

  /** The request body `{...formData, _subject, _captcha, _template, 'turnstile-token'}`. */
  function Payload(formData: map<string, string>, token: string): (p: map<string, string>)
    ensures p.Keys == formData.Keys + ReservedKeys
    ensures p["_subject"] == Subject && p["_captcha"] == "false" && p["_template"] == "table"
    ensures p["turnstile-token"] == token
    ensures forall k :: k in formData && k !in ReservedKeys ==> p[k] == formData[k]
  {
    formData + map["_subject" := Subject, "_captcha" := "false", "_template" := "table",
                   "turnstile-token" := token]
  }

  /** Every field the user filled in reaches the request unchanged, since no
      field name is one of the added keys. */
  lemma PayloadCarriesForm(formData: map<string, string>, token: string)
    requires formData.Keys == FormFields
    ensures Payload(formData, token).Keys == FormFields + ReservedKeys
    ensures forall f :: f in FormFields ==> Payload(formData, token)[f] == formData[f]
  {
    assert FormFields !! ReservedKeys;
  }

  class ContactForm {
    var formData: map<string, string>
    var status: Status
    var token: string
    var consent: bool
    /** Requests posted whose response has not arrived yet. */
    var inFlight: nat
    /** Five-second reset timers armed by a success that have not fired yet. */
    var resetTimers: nat

    ghost predicate Valid()
      reads this
    {
      && formData.Keys == FormFields
      && status in {Idle, Sending, Sent, Failed}
      && (status.loading ==> inFlight > 0)
      && (status == Sent ==> resetTimers > 0)
    }

    /** The submit button's `disabled` attribute. */
    predicate SubmitDisabled()
      reads this
    {
      status.loading || token == "" || !consent
    }

    constructor ()
      ensures Valid()
      ensures formData == EmptyForm() && status == Idle && token == "" && !consent
      ensures inFlight == 0 && resetTimers == 0
    {
      formData := EmptyForm();
      status := Idle;
      token := "";
      consent := false;
      inFlight, resetTimers := 0, 0;
    }

    /** `handleChange`: the input named `name` now holds `value`. It is bound
        only to the five inputs, so `name` is one of the form's fields. */
    method Change(name: string, value: string)
      requires Valid() && name in FormFields
      modifies this
      ensures Valid()
      ensures formData == old(formData)[name := value]
      ensures forall f :: f in FormFields && f != name ==> formData[f] == old(formData)[f]
      ensures unchanged(this`status, this`token, this`consent, this`inFlight, this`resetTimers)
    {
      formData := formData[name := value];
    }

    /** The consent checkbox's `onChange`. */
    method SetConsent(checked: bool)
      requires Valid()
      modifies this
      ensures Valid() && consent == checked
      ensures unchanged(this`formData, this`status, this`token, this`inFlight, this`resetTimers)
    {
      consent := checked;
    }

    /** The challenge widget's `onVerify`. */
    method TokenVerify(t: string)
      requires Valid()
      modifies this
      ensures Valid() && token == t
      ensures unchanged(this`formData, this`status, this`consent, this`inFlight, this`resetTimers)
    {
      token := t;
    }

    /** The challenge widget's `onExpire`: the token is dropped, which disables
        the submit button. */
    method TokenExpire()
      requires Valid()
      modifies this
      ensures Valid() && token == "" && SubmitDisabled()
      ensures unchanged(this`formData, this`status, this`consent, this`inFlight, this`resetTimers)
    {
      token := "";
    }

    /** The challenge widget's `onError`: the token is dropped, which disables
        the submit button. */
    method TokenError()
      requires Valid()
      modifies this
      ensures Valid() && token == "" && SubmitDisabled()
      ensures unchanged(this`formData, this`status, this`consent, this`inFlight, this`resetTimers)
    {
      token := "";
    }

    /** `handleSubmit` up to the request: consent is checked first, then the
        token; only with both is the status set to loading and the request
        posted. Nothing but the status and the count of requests changes. */
    method Submit() returns (r: SubmitResult)
      requires Valid()
      modifies this
      ensures Valid()
      ensures !old(consent) ==> r == ConsentRequired && status == old(status) && inFlight == old(inFlight)
      ensures old(consent) && old(token) == "" ==>
                r == VerificationRequired && status == old(status) && inFlight == old(inFlight)
      ensures old(consent) && old(token) != "" ==>
                r == Posted(Payload(old(formData), old(token))) && status == Sending
                && inFlight == old(inFlight) + 1
      ensures old(!SubmitDisabled()) ==> r.Posted?
      ensures r.Posted? ==> SubmitDisabled()
      ensures unchanged(this`formData, this`token, this`consent, this`resetTimers)
    {
      if !consent {
        r := ConsentRequired;
        return;
      }
      if token == "" {
        r := VerificationRequired;
        return;
      }
      status := Sending;
      r := Posted(Payload(formData, token));
      inFlight := inFlight + 1;
    }

    /** The response to a posted request arrives: success shows the success
        message and arms the reset timer; failure shows the error message.
        The fields, token and consent are left as they are. */
    method Outcome(ok: bool)
      requires Valid() && inFlight > 0
      modifies this
      ensures Valid()
      ensures status == if ok then Sent else Failed
      ensures !status.loading && status.success == ok && status.error == !ok
      ensures inFlight == old(inFlight) - 1
      ensures resetTimers == if ok then old(resetTimers) + 1 else old(resetTimers)
      ensures unchanged(this`formData, this`token, this`consent)
    {
      if ok {
        status := Sent;
        resetTimers := resetTimers + 1;
      } else {
        status := Failed;
      }
      inFlight := inFlight - 1;
    }

    /** A reset timer armed by a success fires: every field is emptied, the
        status cleared, the token dropped and consent withdrawn. */
    method Reset()
      requires Valid() && resetTimers > 0
      modifies this
      ensures Valid()
      ensures formData == EmptyForm() && status == Idle && token == "" && !consent
      ensures SubmitDisabled()
      ensures resetTimers == old(resetTimers) - 1 && inFlight == old(inFlight)
    {
      formData := EmptyForm();
      status := Idle;
      token := "";
      consent := false;
      resetTimers := resetTimers - 1;
    }
  }
}
