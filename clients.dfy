/** `POST /api/clients`: validate the body against `clientSchema` and create
    the client from exactly the parsed fields. */
module ClientsRoute {
  import opened Base
  import opened Json

  /** The parsed body: unknown keys are dropped. */
  datatype ClientData = ClientData(name: string, company: Option<string>, status: Option<string>)

  /** `clientSchema.safeParse(body)`. */
  function ParseClient(body: Json): (r: Result<ClientData, ParseError>)
    ensures r.Err? ==> (r.error.NotAnObject? <==> !body.JObject?)
    ensures r.Err? && r.error.InvalidFields? ==> r.error.fields != {}
  {
    if !body.JObject? then Err(NotAnObject)
    else
      var name := RequiredText(Get(body, "name"));
      var company := OptionalText(Get(body, "company"));
      var status := OptionalText(Get(body, "status"));
      if name.Ok? && company.Ok? && status.Ok? then Ok(ClientData(name.value, company.value, status.value))
      else Err(InvalidFields(FailedAs(name, "name") + FailedAs(company, "company") + FailedAs(status, "status")))
  }

  /** The data handed to `prisma.client.create`, or `None` when the handler
      never calls it. `input` is `None` when the body is not valid JSON. */
  function CreateCall(input: Option<Json>): Option<ClientData> {
    if input.None? then None
    else match ParseClient(input.value)
      case Ok(data) => Some(data)
      case Err(_) => None
  }

  /** The handler; `createSucceeds` says whether the store accepted the row. */
  function PostClient(input: Option<Json>, createSucceeds: bool): (r: Reply<ClientData>)
    ensures r.status in {201, 400, 500}
    ensures r.status == 201 <==> r.body.Created?
    ensures r.status == 400 <==> r.body.Invalid?
  {
    if input.None? then Reply(500, ServerError("Failed to create client"))
    else match ParseClient(input.value)
      case Err(e) => Reply(400, Invalid(e))
      case Ok(data) =>
        if createSucceeds then Reply(201, Created(data)) else Reply(500, ServerError("Failed to create client"))
  }

  /** A body conforms to the schema: an object whose `name` is a non-empty
      string and whose `company` and `status` are absent or strings. */
  predicate Conforms(body: Json) {
    body.JObject?
    && "name" in body.fields && body.fields["name"].JString? && body.fields["name"].s != ""
    && ("company" in body.fields ==> body.fields["company"].JString?)
    && ("status" in body.fields ==> body.fields["status"].JString?)
  }

  /** Validation succeeds exactly on conforming bodies. */
  lemma ParseIffConforms(body: Json)
    ensures ParseClient(body).Ok? <==> Conforms(body)
  {
  }

  /** A missing or empty name is reported against `name`. */
  lemma NameRequired(body: Json)
    requires body.JObject?
    requires "name" !in body.fields || body.fields["name"] == JString("")
    ensures ParseClient(body).Err? && ParseClient(body).error.InvalidFields?
    ensures "name" in ParseClient(body).error.fields
  {
  }

  /** The error names exactly the fields that fail their check. */
  lemma ErrorNamesFailingFields(body: Json, field: string)
    requires body.JObject? && ParseClient(body).Err?
    ensures field in ParseClient(body).error.fields <==>
      (field == "name" && RequiredText(Get(body, "name")).Err?)
      || (field == "company" && OptionalText(Get(body, "company")).Err?)
      || (field == "status" && OptionalText(Get(body, "status")).Err?)
  {
  }

  /** The created row carries exactly the body's schema fields, absent ones
      staying absent. */
  lemma CreatedIsBody(body: Json)
    requires ParseClient(body).Ok?
    ensures Get(body, "name") == Some(JString(ParseClient(body).value.name))
    ensures ParseClient(body).value.company.None? <==> "company" !in body.fields
    ensures ParseClient(body).value.company.Some? ==> body.fields["company"] == JString(ParseClient(body).value.company.value)
    ensures ParseClient(body).value.status.None? <==> "status" !in body.fields
    ensures ParseClient(body).value.status.Some? ==> body.fields["status"] == JString(ParseClient(body).value.status.value)
  {
  }

  /** Failure answers 400 and creates nothing; success creates the parsed
      data and answers 201 once the store accepts it. */
  lemma PostOutcome(body: Json, createSucceeds: bool)
    ensures ParseClient(body).Err? ==>
      PostClient(Some(body), createSucceeds).status == 400 && CreateCall(Some(body)).None?
    ensures ParseClient(body).Ok? ==>
      CreateCall(Some(body)) == Some(ParseClient(body).value)
      && (PostClient(Some(body), createSucceeds).status == 201 <==> createSucceeds)
      && (createSucceeds ==> PostClient(Some(body), createSucceeds).body == Created(ParseClient(body).value))
  {
  }

  /** An unreadable body is a server error and creates nothing. */
  lemma MalformedBodyIsServerError(createSucceeds: bool)
    ensures PostClient(None, createSucceeds) == Reply(500, ServerError("Failed to create client"))
    ensures CreateCall(None).None?
  {
  }
}
