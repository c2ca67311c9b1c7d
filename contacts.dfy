/** `POST /api/contacts`: validate the body against `contactSchema` and create
    the contact from exactly the parsed fields. Whether a string is an email
    address or a URL is decided by zod's own checks, given here as `formats`. */
module ContactsRoute {
  import opened Base
  import opened Json

  /** zod's `.email()` and `.url()` string checks. */
  datatype Formats = Formats(isEmail: string -> bool, isUrl: string -> bool)

  /** The parsed body: unknown keys are dropped. */
  datatype ContactData = ContactData(
    name: string,
    email: Option<string>,
    phone: Option<string>,
    company: Option<string>,
    position: Option<string>,
    notes: Option<string>,
    image: Option<string>)

  /** `z.string().<check>().optional().or(z.literal(""))`: absent, the empty
      string, or a string passing the check. */
  function OptionalOrEmpty(v: Option<Json>, check: string -> bool): (r: Result<Option<string>, ()>)
    ensures r.Ok? <==> v.None? || v == Some(JString("")) || (v.value.JString? && check(v.value.s))
    ensures r.Ok? ==> (r.value.None? <==> v.None?) && (v.Some? ==> v == Some(JString(r.value.value)))
  {
    match v
    case None => Ok(None)
    case Some(JString(s)) => if check(s) || s == "" then Ok(Some(s)) else Err(())
    case Some(_) => Err(())
  }

  /** `contactSchema.safeParse(body)`. */
  function ParseContact(body: Json, formats: Formats): (r: Result<ContactData, ParseError>)
    ensures r.Err? ==> (r.error.NotAnObject? <==> !body.JObject?)
    ensures r.Err? && r.error.InvalidFields? ==> r.error.fields != {}
  {
    if !body.JObject? then Err(NotAnObject)
    else
      var name := RequiredText(Get(body, "name"));
      var email := OptionalOrEmpty(Get(body, "email"), formats.isEmail);
      var phone := OptionalText(Get(body, "phone"));
      var company := OptionalText(Get(body, "company"));
      var position := OptionalText(Get(body, "position"));
      var notes := OptionalText(Get(body, "notes"));
      var image := OptionalOrEmpty(Get(body, "image"), formats.isUrl);
      if name.Ok? && email.Ok? && phone.Ok? && company.Ok? && position.Ok? && notes.Ok? && image.Ok? then
        Ok(ContactData(name.value, email.value, phone.value, company.value, position.value, notes.value, image.value))
      else
        Err(InvalidFields(FailedAs(name, "name") + FailedAs(email, "email") + FailedAs(phone, "phone")
          + FailedAs(company, "company") + FailedAs(position, "position") + FailedAs(notes, "notes")
          + FailedAs(image, "image")))
  }

  /** The data handed to `prisma.contact.create`, or `None` when the handler
      never calls it. `input` is `None` when the body is not valid JSON. */
  function CreateCall(input: Option<Json>, formats: Formats): Option<ContactData> {
    if input.None? then None
    else match ParseContact(input.value, formats)
      case Ok(data) => Some(data)
      case Err(_) => None
  }

  /** The handler; `createSucceeds` says whether the store accepted the row. */
  function PostContact(input: Option<Json>, formats: Formats, createSucceeds: bool): (r: Reply<ContactData>)
    ensures r.status in {201, 400, 500}
    ensures r.status == 201 <==> r.body.Created?
    ensures r.status == 400 <==> r.body.Invalid?
  {
    if input.None? then Reply(500, ServerError("Failed to create contact"))
    else match ParseContact(input.value, formats)
      case Err(e) => Reply(400, Invalid(e))
      case Ok(data) =>
        if createSucceeds then Reply(201, Created(data)) else Reply(500, ServerError("Failed to create contact"))
  }

  predicate AbsentOrText(body: Json, key: string)
    requires body.JObject?
  {
    key in body.fields ==> body.fields[key].JString?
  }

  predicate AbsentEmptyOr(body: Json, key: string, check: string -> bool)
    requires body.JObject?
  {
    key in body.fields ==> body.fields[key].JString? && (body.fields[key].s == "" || check(body.fields[key].s))
  }

  /** A body conforms to the schema: an object with a non-empty string
      `name`; `email` and `image` absent, empty, or passing their format
      check; the other four fields absent or strings. */
  predicate Conforms(body: Json, formats: Formats) {
    body.JObject?
    && "name" in body.fields && body.fields["name"].JString? && body.fields["name"].s != ""
    && AbsentEmptyOr(body, "email", formats.isEmail)
    && AbsentOrText(body, "phone") && AbsentOrText(body, "company")
    && AbsentOrText(body, "position") && AbsentOrText(body, "notes")
    && AbsentEmptyOr(body, "image", formats.isUrl)
  }

  /** Validation succeeds exactly on conforming bodies. */
  lemma ParseIffConforms(body: Json, formats: Formats)
    ensures ParseContact(body, formats).Ok? <==> Conforms(body, formats)
  {
  }

  /** A missing or empty name is reported against `name`. */
  lemma NameRequired(body: Json, formats: Formats)
    requires body.JObject?
    requires "name" !in body.fields || body.fields["name"] == JString("")
    ensures ParseContact(body, formats).Err? && ParseContact(body, formats).error.InvalidFields?
    ensures "name" in ParseContact(body, formats).error.fields
  {
  }

  /** `email` passes iff absent, empty, or an email address; the empty
      string is kept as it is, not turned into an absent field. */
  lemma EmailRule(body: Json, formats: Formats)
    requires body.JObject?
    ensures OptionalOrEmpty(Get(body, "email"), formats.isEmail).Ok? <==>
      "email" !in body.fields || body.fields["email"] == JString("")
      || (body.fields["email"].JString? && formats.isEmail(body.fields["email"].s))
    ensures Get(body, "email") == Some(JString("")) ==>
      OptionalOrEmpty(Get(body, "email"), formats.isEmail) == Ok(Some(""))
  {
  }

  /** `image` passes iff absent, empty, or a URL. */
  lemma ImageRule(body: Json, formats: Formats)
    requires body.JObject?
    ensures OptionalOrEmpty(Get(body, "image"), formats.isUrl).Ok? <==>
      "image" !in body.fields || body.fields["image"] == JString("")
      || (body.fields["image"].JString? && formats.isUrl(body.fields["image"].s))
  {
  }

  /** The created row carries exactly the body's schema fields, absent ones
      staying absent. */
  lemma CreatedIsBody(body: Json, formats: Formats)
    requires ParseContact(body, formats).Ok?
    ensures var d := ParseContact(body, formats).value;
      Get(body, "name") == Some(JString(d.name))
      && Same(body, "email", d.email) && Same(body, "phone", d.phone)
      && Same(body, "company", d.company) && Same(body, "position", d.position)
      && Same(body, "notes", d.notes) && Same(body, "image", d.image)
  {
  }

  /** Failure answers 400 and creates nothing; success creates the parsed
      data and answers 201 once the store accepts it. */
  lemma PostOutcome(body: Json, formats: Formats, createSucceeds: bool)
    ensures ParseContact(body, formats).Err? ==>
      PostContact(Some(body), formats, createSucceeds).status == 400 && CreateCall(Some(body), formats).None?
    ensures ParseContact(body, formats).Ok? ==>
      CreateCall(Some(body), formats) == Some(ParseContact(body, formats).value)
      && (PostContact(Some(body), formats, createSucceeds).status == 201 <==> createSucceeds)
      && (createSucceeds ==> PostContact(Some(body), formats, createSucceeds).body == Created(ParseContact(body, formats).value))
  {
  }
}
