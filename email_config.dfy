/** `getEmailConfig`: the email-sending settings read from the contact form's data attributes,
    or nothing when the form is missing, a setting is missing or empty, or the key is still
    the placeholder text. */
module EmailConfig {
  import opened Wrappers
  import opened JsText

  /** The text that marks a key nobody has filled in yet. */
  const PLACEHOLDER_KEY := "PUBLIC_KEY"

  /** The form's `data-email-service`, `data-email-template` and `data-email-key` attributes;
      `None` for an attribute the markup does not have. */
  datatype FormData = FormData(emailService: Option<string>, emailTemplate: Option<string>, emailKey: Option<string>)

  datatype Config = Config(serviceId: string, templateId: string, publicKey: string)

  /** `!value` for an attribute value: `undefined` and the empty string are falsy. */
  predicate Falsy(value: Option<string>) {
    value.None? || value.value == ""
  }

  /** `getEmailConfig()`, for the page's form (`None` when the page has none). */
  function GetEmailConfig(form: Option<FormData>): (r: Option<Config>)
    ensures r.None? <==>
      form.None? || Falsy(form.value.emailService) || Falsy(form.value.emailTemplate)
      || Falsy(form.value.emailKey)
      || exists i :: OccursAt(form.value.emailKey.value, PLACEHOLDER_KEY, i)
    ensures r.Some? ==>
      form.value.emailService == Some(r.value.serviceId) && r.value.serviceId != ""
      && form.value.emailTemplate == Some(r.value.templateId) && r.value.templateId != ""
      && form.value.emailKey == Some(r.value.publicKey) && r.value.publicKey != ""
  {
    if form.None? then None
    else
      var data := form.value;
      if Falsy(data.emailService) || Falsy(data.emailTemplate) || Falsy(data.emailKey) then None
      else
        IncludesIff(data.emailKey.value, PLACEHOLDER_KEY);
        if Includes(data.emailKey.value, PLACEHOLDER_KEY) then None
        else Some(Config(data.emailService.value, data.emailTemplate.value, data.emailKey.value))
  }

  /** A key that still carries the placeholder anywhere in it is never used. */
  lemma PlaceholderKeyRejected(service: string, template: string, prefix: string, suffix: string)
    ensures GetEmailConfig(Some(FormData(Some(service), Some(template),
                                         Some(prefix + PLACEHOLDER_KEY + suffix)))).None?
  {
    var key := prefix + PLACEHOLDER_KEY + suffix;
    assert key[|prefix|..|prefix| + |PLACEHOLDER_KEY|] == PLACEHOLDER_KEY;
    assert OccursAt(key, PLACEHOLDER_KEY, |prefix|);
  }
}
