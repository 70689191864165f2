/** The contact form: `handleFormSubmit` with `showError` and `clearError`, and the submit
    button around the send.

    A submission first runs three independent checks, always all three and in order: the
    trimmed name is not empty, the email passes `validateEmail`, the trimmed message is at
    least ten UTF-16 code units long. Each field ends with its fixed error text and the
    `invalid` class, or with both cleared. Then exactly one of three things happens: the
    submission stops with the "fix" status, stops with the "not configured" status, or the
    message is handed to the email service with the submit button disabled. The service's
    answer (`FinishSend`) sets the final status, resets the fields only on success, and enables
    the button again either way. */
module ContactForm {
  import opened Wrappers
  import opened JsText
  import opened EmailShape
  import opened EmailConfig

  const NAME_REQUIRED := "Name is required."
  const EMAIL_INVALID := "Enter a valid email."
  const MESSAGE_TOO_SHORT := "Please include at least 10 characters."
  const MIN_MESSAGE_LENGTH := 10

  const STATUS_FIX := "Please fix the highlighted fields."
  const STATUS_NOT_CONFIGURED := "Email service not configured. Update data attributes to enable sending."
  const STATUS_SENDING := "Sending..."
  const STATUS_SENT := "Thanks! Your message is on its way."
  const STATUS_FAILED := "Something went wrong. Please try again in a moment."

  // ---------------------------------------------------------------------------------------
  // The three checks

  /** `nameInput.value.trim()` is truthy: the name has a character that is not whitespace. */
  predicate NameOk(name: string)
    ensures NameOk(name) <==> exists k :: 0 <= k < |name| && !IsWhitespace(name[k])
  {
    Trim(name) != ""
  }

  predicate EmailOk(email: string) {
    ValidateEmail(email)
  }

  /** `messageInput.value.trim().length >= 10`, the length counted in UTF-16 code units. */
  predicate MessageOk(message: string)
    ensures MessageOk(message) ==> 5 <= |Trim(message)|
    ensures (forall k :: 0 <= k < |message| ==> message[k] as int < 0x1_0000) ==>
      (MessageOk(message) <==> |Trim(message)| >= MIN_MESSAGE_LENGTH)
  {
    Utf16Length(Trim(message)) >= MIN_MESSAGE_LENGTH
  }

  /** Whitespace around a message does not count towards its length: nine characters
      between the blanks are too few, ten are enough. */
  lemma MessageBoundary(pre: string, post: string)
    requires AllWhitespace(pre) && AllWhitespace(post)
    ensures !MessageOk(pre + "123456789" + post)
    ensures MessageOk(pre + "1234567890" + post)
  {
    TrimPadded(pre, "123456789", post);
    TrimPadded(pre, "1234567890", post);
  }

  // ---------------------------------------------------------------------------------------
  // Fields and the submission's outcome

  /** An input with the `<small>` error element beside it and its `invalid` class. */
  datatype Control = Control(value: string, error: string, invalid: bool)

  /** The control after its check: the message and the `invalid` class exactly when the
      check failed, both cleared otherwise; the value is never touched. */
  function Checked(c: Control, ok: bool, message: string): (r: Control)
    ensures r.value == c.value
    ensures r.invalid <==> !ok
    ensures r.error == if ok then "" else message
  {
    if ok then c.(error := "", invalid := false) else c.(error := message, invalid := true)
  }

  datatype TemplateParams = TemplateParams(fromName: string, replyTo: string, message: string)

  /** The arguments of `emailjs.send(serviceId, templateId, templateParams)`. */
  datatype SendRequest = SendRequest(serviceId: string, templateId: string, params: TemplateParams)

  /** How a submission ends before the email service answers. */
  datatype SubmitStep = InvalidFields | NotConfigured | Send(request: SendRequest)

  /** What a submission of `name`, `email` and `message` does, given the form's attributes
      and whether the email library is loaded. */
  function Decide(name: string, email: string, message: string, form: FormData, emailjsDefined: bool): (step: SubmitStep)
    ensures step.InvalidFields? <==> !NameOk(name) || !IsEmailShape(email) || !MessageOk(message)
    ensures step.NotConfigured? <==>
      NameOk(name) && IsEmailShape(email) && MessageOk(message)
      && (GetEmailConfig(Some(form)).None? || !emailjsDefined)
    ensures step.Send? ==>
      emailjsDefined
      && form.emailService == Some(step.request.serviceId)
      && form.emailTemplate == Some(step.request.templateId)
      && form.emailKey.Some? && form.emailKey.value != ""
      && !(exists i :: OccursAt(form.emailKey.value, PLACEHOLDER_KEY, i))
      && step.request.params == TemplateParams(name, email, message)
  {
    ValidateEmailIff(email);
    if !(NameOk(name) && EmailOk(email) && MessageOk(message)) then InvalidFields
    else
      var config := GetEmailConfig(Some(form));
      if config.None? || !emailjsDefined then NotConfigured
      else Send(SendRequest(config.value.serviceId, config.value.templateId, TemplateParams(name, email, message)))
  }

  /** The status text a submission shows before the email service answers. */
  function StatusOf(step: SubmitStep): string {
    match step
    case InvalidFields => STATUS_FIX
    case NotConfigured => STATUS_NOT_CONFIGURED
    case Send(_) => STATUS_SENDING
  }

  /** Every failing check is reported, not only the first: with an empty name, a bad email
      and a short message the submission stops, and the three checks that produce the field
      errors all fail. */
  lemma AllErrorsTogether(form: FormData, emailjsDefined: bool)
    ensures !NameOk("") && !EmailOk("a@b") && !MessageOk("12345678")
    ensures Decide("", "a@b", "12345678", form, emailjsDefined) == InvalidFields
  {
    RejectsNoDot();
    TrimPadded("", "12345678", "");
    assert "" + "12345678" + "" == "12345678";
  }

  // ---------------------------------------------------------------------------------------
  // The form on the page

  datatype FieldId = NameField | EmailField | MessageField

  class Form {
    /** `#name`, `#email` and `#message` with their error elements. */
    var name: Control
    var email: Control
    var message: Control
    /** `.form-status`'s text. */
    var status: string
    /** The submit button's `disabled`. */
    var submitDisabled: bool
    /** The form's data attributes. */
    const data: FormData

    function ControlOf(f: FieldId): Control
      reads this
    {
      match f
      case NameField => name
      case EmailField => email
      case MessageField => message
    }

    /** The form as loaded: empty fields, no errors, no status, the button enabled. */
    constructor (data: FormData)
      ensures this.data == data
      ensures name == email == message == Control("", "", false)
      ensures status == "" && !submitDisabled
    {
      this.data := data;
      name, email, message := Control("", "", false), Control("", "", false), Control("", "", false);
      status, submitDisabled := "", false;
    }

    /** `showError(input, text)`: the error element shows `text` and the input gets `invalid`. */
    method ShowError(f: FieldId, text: string)
      modifies this
      ensures ControlOf(f) == old(ControlOf(f)).(error := text, invalid := true)
      ensures f != NameField ==> name == old(name)
      ensures f != EmailField ==> email == old(email)
      ensures f != MessageField ==> message == old(message)
      ensures status == old(status) && submitDisabled == old(submitDisabled)
    {
      match f
      case NameField => name := name.(error := text, invalid := true);
      case EmailField => email := email.(error := text, invalid := true);
      case MessageField => message := message.(error := text, invalid := true);
    }

    /** `clearError(input)`: the error element is emptied and `invalid` removed. */
    method ClearError(f: FieldId)
      modifies this
      ensures ControlOf(f) == old(ControlOf(f)).(error := "", invalid := false)
      ensures f != NameField ==> name == old(name)
      ensures f != EmailField ==> email == old(email)
      ensures f != MessageField ==> message == old(message)
      ensures status == old(status) && submitDisabled == old(submitDisabled)
    {
      match f
      case NameField => name := name.(error := "", invalid := false);
      case EmailField => email := email.(error := "", invalid := false);
      case MessageField => message := message.(error := "", invalid := false);
    }

    /** The three checks of `handleFormSubmit`, each run whatever the others found. The
        verdict is valid exactly when no field is marked invalid, which is exactly when all
        three checks pass. */
    method CheckFields() returns (isValid: bool)
      modifies this
      ensures name == Checked(old(name), NameOk(old(name).value), NAME_REQUIRED)
      ensures email == Checked(old(email), EmailOk(old(email).value), EMAIL_INVALID)
      ensures message == Checked(old(message), MessageOk(old(message).value), MESSAGE_TOO_SHORT)
      ensures isValid <==> !name.invalid && !email.invalid && !message.invalid
      ensures isValid <==> NameOk(name.value) && EmailOk(email.value) && MessageOk(message.value)
      ensures isValid <==> NameOk(name.value) && IsEmailShape(email.value) && MessageOk(message.value)
      ensures status == old(status) && submitDisabled == old(submitDisabled)
    {
      isValid := true;

      if Trim(name.value) == [] {
        ShowError(NameField, NAME_REQUIRED);
        isValid := false;
      } else {
        ClearError(NameField);
      }

      if !ValidateEmail(email.value) {
        ShowError(EmailField, EMAIL_INVALID);
        isValid := false;
      } else {
        ClearError(EmailField);
      }

      if Utf16Length(Trim(message.value)) < MIN_MESSAGE_LENGTH {
        ShowError(MessageField, MESSAGE_TOO_SHORT);
        isValid := false;
      } else {
        ClearError(MessageField);
      }

      ValidateEmailIff(email.value);
    }

    /** `handleFormSubmit` up to the call to the email service: the checks, then the status,
        and on the send path the button disabled. The returned step is the one `Decide`
        gives for the values as submitted. */
    method HandleSubmit(emailjsDefined: bool) returns (step: SubmitStep)
      modifies this
      ensures step == Decide(old(name).value, old(email).value, old(message).value, data, emailjsDefined)
      ensures name == Checked(old(name), NameOk(old(name).value), NAME_REQUIRED)
      ensures email == Checked(old(email), EmailOk(old(email).value), EMAIL_INVALID)
      ensures message == Checked(old(message), MessageOk(old(message).value), MESSAGE_TOO_SHORT)
      ensures status == StatusOf(step)
      ensures submitDisabled == (step.Send? || old(submitDisabled))
    {
      ghost var expected := Decide(name.value, email.value, message.value, data, emailjsDefined);
      var isValid := CheckFields();
      if !isValid {
        status := STATUS_FIX;
        return InvalidFields;
      }
      var config := GetEmailConfig(Some(data));
      if config.None? || !emailjsDefined {
        status := STATUS_NOT_CONFIGURED;
        return NotConfigured;
      }
      assert expected.Send?;
      status := STATUS_SENDING;
      submitDisabled := true;
      step := Send(SendRequest(config.value.serviceId, config.value.templateId,
                               TemplateParams(name.value, email.value, message.value)));
    }

    /** The `.then`, `.catch` and `.finally` of the send: the status says how it went, only
        success empties the fields (`form.reset()`), and the button is enabled either way. */
    method FinishSend(succeeded: bool)
      modifies this
      ensures status == if succeeded then STATUS_SENT else STATUS_FAILED
      ensures !submitDisabled
      ensures succeeded ==>
        name == old(name).(value := "") && email == old(email).(value := "")
        && message == old(message).(value := "")
      ensures !succeeded ==> name == old(name) && email == old(email) && message == old(message)
    {
      if succeeded {
        status := STATUS_SENT;
        name := name.(value := "");
        email := email.(value := "");
        message := message.(value := "");
      } else {
        status := STATUS_FAILED;
      }
      submitDisabled := false;
    }
  }

  /** One whole submission, with the service's answer given as `succeeded`. The button is
      disabled only while a send is outstanding, so it ends enabled when the send path was
      taken; the fields are emptied only by a successful send. */
  method SubmitAndSettle(form: Form, emailjsDefined: bool, succeeded: bool) returns (step: SubmitStep)
    requires !form.submitDisabled
    modifies form
    ensures step == Decide(old(form.name).value, old(form.email).value, old(form.message).value, form.data, emailjsDefined)
    ensures !form.submitDisabled
    ensures step.InvalidFields? ==> form.status == STATUS_FIX
    ensures step.NotConfigured? ==> form.status == STATUS_NOT_CONFIGURED
    ensures step.Send? ==> form.status == (if succeeded then STATUS_SENT else STATUS_FAILED)
    ensures step.Send? && succeeded ==> form.name.value == form.email.value == form.message.value == ""
    ensures !(step.Send? && succeeded) ==>
      form.name.value == old(form.name).value && form.email.value == old(form.email).value
      && form.message.value == old(form.message).value
  {
    step := form.HandleSubmit(emailjsDefined);
    if step.Send? {
      assert form.submitDisabled;
      form.FinishSend(succeeded);
    }
  }
}
