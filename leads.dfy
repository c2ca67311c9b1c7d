/** `POST /api/leads`: validate the body against `leadSchema`, take
    `contactIds` out of the lead data, and create the lead together with one
    join row per listed contact. */
module LeadsRoute {
  import opened Base
  import opened Json

  datatype LeadStatus = NEW | CONTACTED | QUALIFIED | CONVERTED | LOST

  function StatusName(st: LeadStatus): string {
    match st
    case NEW => "NEW"
    case CONTACTED => "CONTACTED"
    case QUALIFIED => "QUALIFIED"
    case CONVERTED => "CONVERTED"
    case LOST => "LOST"
  }

  /** The enum's member with this name, if any. */
  function StatusNamed(s: string): Option<LeadStatus> {
    if s == "NEW" then Some(NEW)
    else if s == "CONTACTED" then Some(CONTACTED)
    else if s == "QUALIFIED" then Some(QUALIFIED)
    else if s == "CONVERTED" then Some(CONVERTED)
    else if s == "LOST" then Some(LOST)
    else None
  }

  /** Names and members correspond one to one. */
  lemma StatusNamesRoundTrip(st: LeadStatus, s: string)
    ensures StatusNamed(StatusName(st)) == Some(st)
    ensures StatusNamed(s) == Some(st) ==> s == StatusName(st)
  {
  }

  /** `z.enum([...]).default("NEW")`: absent means `NEW`; otherwise one of the
      five names. */
  function StatusField(v: Option<Json>): (r: Result<LeadStatus, ()>)
    ensures v.None? ==> r == Ok(NEW)
    ensures v.Some? ==> (r.Ok? <==> v.value.JString? && StatusNamed(v.value.s).Some?)
    ensures v.Some? && r.Ok? ==> v.value == JString(StatusName(r.value))
  {
    match v
    case None => Ok(NEW)
    case Some(JString(s)) =>
      var st := StatusNamed(s);
      if st.Some? then (StatusNamesRoundTrip(st.value, s); Ok(st.value)) else Err(())
    case Some(_) => Err(())
  }

  /** The parsed body: unknown keys are dropped; `status` is filled in. */
  datatype LeadData = LeadData(
    title: string,
    description: Option<string>,
    status: LeadStatus,
    value: Option<int>,
    assignedToId: Option<string>,
    contactIds: Option<seq<string>>)

  /** `leadSchema.safeParse(body)`. */
  function ParseLead(body: Json): (r: Result<LeadData, ParseError>)
    ensures r.Err? ==> (r.error.NotAnObject? <==> !body.JObject?)
    ensures r.Err? && r.error.InvalidFields? ==> r.error.fields != {}
  {
    if !body.JObject? then Err(NotAnObject)
    else
      var title := RequiredText(Get(body, "title"));
      var description := OptionalText(Get(body, "description"));
      var status := StatusField(Get(body, "status"));
      var value := OptionalNumber(Get(body, "value"));
      var assignedToId := OptionalText(Get(body, "assignedToId"));
      var contactIds := OptionalTextArray(Get(body, "contactIds"));
      if title.Ok? && description.Ok? && status.Ok? && value.Ok? && assignedToId.Ok? && contactIds.Ok? then
        Ok(LeadData(title.value, description.value, status.value, value.value, assignedToId.value, contactIds.value))
      else
        Err(InvalidFields(FailedAs(title, "title") + FailedAs(description, "description")
          + FailedAs(status, "status") + FailedAs(value, "value")
          + FailedAs(assignedToId, "assignedToId") + FailedAs(contactIds, "contactIds")))
  }

  /** A nested join-row create: `{ contact: { connect: { id } } }`. */
  datatype ContactLink = ContactLink(contactId: string)

  /** What `prisma.lead.create` receives: the lead data without `contactIds`,
      and the join rows to create with it (`undefined` when there are none). */
  datatype LeadCreate = LeadCreate(
    title: string,
    description: Option<string>,
    status: LeadStatus,
    value: Option<int>,
    assignedToId: Option<string>,
    contacts: Option<seq<ContactLink>>)

  /** `contactIds && contactIds.length > 0 ? { create: contactIds.map(...) } : undefined`. */
  function JoinRows(contactIds: Option<seq<string>>): Option<seq<ContactLink>> {
    if contactIds.Some? && |contactIds.value| > 0 then
      Some(seq(|contactIds.value|, i requires 0 <= i < |contactIds.value| => ContactLink(contactIds.value[i])))
    else None
  }

  /** `const { contactIds, ...leadData } = result.data` and the create payload. */
  function ToCreate(d: LeadData): LeadCreate {
    LeadCreate(d.title, d.description, d.status, d.value, d.assignedToId, JoinRows(d.contactIds))
  }

  /** The payload handed to `prisma.lead.create`, or `None` when the handler
      never calls it. `input` is `None` when the body is not valid JSON. */
  function CreateCall(input: Option<Json>): Option<LeadCreate> {
    if input.None? then None
    else match ParseLead(input.value)
      case Ok(data) => Some(ToCreate(data))
      case Err(_) => None
  }

  /** The handler; `createSucceeds` says whether the store accepted the rows
      (it refuses, for one, an id that names no contact). */
  function PostLead(input: Option<Json>, createSucceeds: bool): (r: Reply<LeadCreate>)
    ensures r.status in {201, 400, 500}
    ensures r.status == 201 <==> r.body.Created?
    ensures r.status == 400 <==> r.body.Invalid?
  {
    if input.None? then Reply(500, ServerError("Failed to create lead"))
    else match ParseLead(input.value)
      case Err(e) => Reply(400, Invalid(e))
      case Ok(data) =>
        if createSucceeds then Reply(201, Created(ToCreate(data))) else Reply(500, ServerError("Failed to create lead"))
  }

  /** A body conforms to the schema: an object with a non-empty string
      `title`; `status`, when present, one of the five names; `description`
      and `assignedToId` absent or strings; `value` absent or a number;
      `contactIds` absent or an array of strings. */
  predicate Conforms(body: Json) {
    body.JObject?
    && "title" in body.fields && body.fields["title"].JString? && body.fields["title"].s != ""
    && ("description" in body.fields ==> body.fields["description"].JString?)
    && ("status" in body.fields ==>
          body.fields["status"].JString? && body.fields["status"].s in {"NEW", "CONTACTED", "QUALIFIED", "CONVERTED", "LOST"})
    && ("value" in body.fields ==> body.fields["value"].JNumber?)
    && ("assignedToId" in body.fields ==> body.fields["assignedToId"].JString?)
    && ("contactIds" in body.fields ==>
          body.fields["contactIds"].JArray? && AllStrings(body.fields["contactIds"].items))
  }

  /** Validation succeeds exactly on conforming bodies. */
  lemma ParseIffConforms(body: Json)
    ensures ParseLead(body).Ok? <==> Conforms(body)
  {
    if body.JObject? && "status" in body.fields && body.fields["status"].JString? {
      var s := body.fields["status"].s;
      assert StatusNamed(s).Some? <==> s in {"NEW", "CONTACTED", "QUALIFIED", "CONVERTED", "LOST"};
    }
  }

  /** A missing or empty title is reported against `title`. */
  lemma TitleRequired(body: Json)
    requires body.JObject?
    requires "title" !in body.fields || body.fields["title"] == JString("")
    ensures ParseLead(body).Err? && ParseLead(body).error.InvalidFields?
    ensures "title" in ParseLead(body).error.fields
  {
  }

  /** An absent status defaults to `NEW`; `CONVERTED` can be given on create. */
  lemma StatusDefaultsAndConverted(body: Json)
    requires ParseLead(body).Ok?
    ensures "status" !in body.fields ==> ParseLead(body).value.status == NEW
    ensures Get(body, "status") == Some(JString("CONVERTED")) ==> ParseLead(body).value.status == CONVERTED
  {
    if Get(body, "status") == Some(JString("CONVERTED")) {
      assert StatusNamed("CONVERTED") == Some(CONVERTED);
    }
  }

  /** A status outside the enum, or not a string, is refused. */
  lemma UnknownStatusRefused(body: Json)
    requires body.JObject? && "status" in body.fields
    requires !body.fields["status"].JString? || StatusNamed(body.fields["status"].s).None?
    ensures ParseLead(body).Err? && "status" in ParseLead(body).error.fields
  {
  }

  /** `assignedToId: null` is refused: optional means absent, not null. */
  lemma NullAssigneeRefused(body: Json)
    requires body.JObject? && "assignedToId" in body.fields && body.fields["assignedToId"] == JNull
    ensures ParseLead(body).Err? && "assignedToId" in ParseLead(body).error.fields
  {
  }

  /** One join row per contact id, in the same order, and no join rows at all
      when the list is absent or empty. */
  lemma JoinRowsPerId(contactIds: Option<seq<string>>)
    ensures JoinRows(contactIds).Some? <==> contactIds.Some? && |contactIds.value| > 0
    ensures JoinRows(contactIds).Some? ==>
      |JoinRows(contactIds).value| == |contactIds.value|
      && forall i :: 0 <= i < |contactIds.value| ==> JoinRows(contactIds).value[i].contactId == contactIds.value[i]
  {
  }

  /** The create payload carries every lead field of the body (`status`
      filled in with `NEW` when absent) and, for `contactIds`, exactly the
      join rows: one per id, in the body's order. */
  lemma CreateCarriesBody(body: Json)
    requires ParseLead(body).Ok?
    ensures var c := ToCreate(ParseLead(body).value);
      Get(body, "title") == Some(JString(c.title))
      && Same(body, "description", c.description)
      && Same(body, "assignedToId", c.assignedToId)
      && (Get(body, "status").None? ==> c.status == NEW)
      && (Get(body, "status").Some? ==> Get(body, "status") == Some(JString(StatusName(c.status))))
      && (c.value.None? <==> Get(body, "value").None?)
      && (c.value.Some? ==> Get(body, "value") == Some(JNumber(c.value.value)))
      && (c.contacts.Some? <==> "contactIds" in body.fields && |body.fields["contactIds"].items| > 0)
      && (c.contacts.Some? ==>
            |c.contacts.value| == |body.fields["contactIds"].items|
            && forall i :: 0 <= i < |c.contacts.value| ==>
                 body.fields["contactIds"].items[i] == JString(c.contacts.value[i].contactId))
  {
    var d := ParseLead(body).value;
    JoinRowsPerId(d.contactIds);
  }

  /** Failure answers 400 and creates nothing; success creates the payload
      and answers 201 once the store accepts it. */
  lemma PostOutcome(body: Json, createSucceeds: bool)
    ensures ParseLead(body).Err? ==>
      PostLead(Some(body), createSucceeds).status == 400 && CreateCall(Some(body)).None?
    ensures ParseLead(body).Ok? ==>
      CreateCall(Some(body)) == Some(ToCreate(ParseLead(body).value))
      && (PostLead(Some(body), createSucceeds).status == 201 <==> createSucceeds)
  {
  }
}
