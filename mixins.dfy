/** `CustomDeleteMixin.get_object_info` (core/base/mixins.py): the summary of
    a deleted object, its primary key under `id` and its first name-like
    attribute under `name`. An instance is modelled by its attributes, a map
    from attribute name to value; `hasattr` is membership in that map. */
module Mixins {
  import opened Text
  import opened Models

  /** The attributes tried for the name, in order. */
  const NameFields: seq<string> := [
    "name", "title", "network_user", "client_name",
    "service_name", "rol_name", "priority_name",
    "program_name", "sub_program_name", "closing_code_name",
    "ans_name", "status_name", "ticket_title"]

  /** The position of the first of `fields` that the instance has. */
  function FirstPresent(fields: seq<string>, instance: map<string, Value>): (r: Option<nat>)
    ensures r.None? <==> forall j :: 0 <= j < |fields| ==> fields[j] !in instance
    ensures r.Some? ==> r.value < |fields| && fields[r.value] in instance
    ensures r.Some? ==> forall j :: 0 <= j < r.value ==> fields[j] !in instance
  {
    if fields == [] then None
    else if fields[0] in instance then Some(0)
    else match FirstPresent(fields[1..], instance) {
      case None => None
      case Some(k) => Some(k + 1)
    }
  }

  /** `get_object_info(instance)`: `id` when the instance has a `pk`; then
      the first listed attribute it has, and no later one, as `name`. */
  method GetObjectInfo(instance: map<string, Value>) returns (info: map<string, Value>)
    ensures info.Keys <= {"id", "name"}
    ensures "id" in info <==> "pk" in instance
    ensures "id" in info ==> info["id"] == instance["pk"]
    ensures "name" in info <==> FirstPresent(NameFields, instance).Some?
    ensures "name" in info ==> info["name"] == instance[NameFields[FirstPresent(NameFields, instance).value]]
  {
    info := map[];
    if "pk" in instance {
      info := info["id" := instance["pk"]];
    }
    var i := 0;
    while i < |NameFields|
      invariant 0 <= i <= |NameFields|
      invariant forall j :: 0 <= j < i ==> NameFields[j] !in instance
      invariant info.Keys <= {"id"}
      invariant "id" in info <==> "pk" in instance
      invariant "id" in info ==> info["id"] == instance["pk"]
    {
      var field := NameFields[i];
      if field in instance {
        info := info["name" := instance[field]];
        FirstPresentAt(NameFields, instance, i);
        return;
      }
      i := i + 1;
    }
  }

  /** A present field with no present field before it is the first present. */
  lemma {:induction false} FirstPresentAt(fields: seq<string>, instance: map<string, Value>, i: nat)
    requires i < |fields| && fields[i] in instance
    requires forall j :: 0 <= j < i ==> fields[j] !in instance
    ensures FirstPresent(fields, instance) == Some(i)
  {
  }

  /** Later attributes are never consulted once one is found: an instance
      with a `name` is summarised by it, whatever titles or users it has. */
  lemma {:induction false} NameWinsOverTitle(instance: map<string, Value>)
    requires "name" in instance
    ensures FirstPresent(NameFields, instance) == Some(0)
  {
  }

  /** Only the listed attributes matter for the name: instances that agree
      on which of them they have, and on their values, get the same name. */
  lemma {:induction false} FirstPresentOnlyListed(fields: seq<string>, a: map<string, Value>, b: map<string, Value>)
    requires forall f :: f in fields ==> (f in a <==> f in b)
    ensures FirstPresent(fields, a) == FirstPresent(fields, b)
  {
    if fields != [] {
      FirstPresentOnlyListed(fields[1..], a, b);
    }
  }

  /** The attributes `hasattr` finds on a `Ticket` instance
      (apps/tickets/models.py): `pk`, every concrete field under its own
      name, and the `<field>_id` column of every foreign key. */
  const TicketAttributes: set<string> := {
    "pk", "id_ticket", "ticket_title", "ticket_description", "ticket_attachments",
    "ticket_service", "ticket_service_id", "ticket_priority", "ticket_priority_id",
    "ticket_closing_code", "ticket_closing_code_id", "ticket_ans", "ticket_ans_id",
    "reporter_user", "reporter_user_id", "create_at", "update_at",
    "assigned_to", "assigned_to_id", "closing_date", "estimated_closing_date",
    "status_id", "status_id_id", "sub_program_name", "sub_program_name_id"}

  /** The foreign keys of a ticket. */
  const TicketForeignKeys: set<string> := {
    "ticket_service", "ticket_priority", "ticket_closing_code", "ticket_ans",
    "reporter_user", "assigned_to", "status_id", "sub_program_name"}

  /** The value of one ticket attribute. A foreign key attribute holds the
      row it points to and its `<field>_id` column holds that row's key; a
      missing optional value is `None`. */
  function TicketAttribute(t: Ticket, attr: string): (v: Value)
    ensures attr in TicketForeignKeys ==> v.Row? || v.KeyRow? || v == NoneValue
  {
    match attr
    case "sub_program_name" => KeyRow("SubProgram", t.subProgramName)
    case "sub_program_name_id" => Str(t.subProgramName)
    case "pk" => Number(t.id)
    case "id_ticket" => Number(t.id)
    case "ticket_title" => Str(t.title)
    case "ticket_description" => Str(t.description)
    case "ticket_attachments" => if t.attachments.Some? then Str(t.attachments.value) else NoneValue
    case "ticket_service" => Row("Service", t.serviceId)
    case "ticket_service_id" => Number(t.serviceId)
    case "ticket_priority" => KeyRow("TicketPriority", t.priorityName)
    case "ticket_priority_id" => Str(t.priorityName)
    case "ticket_closing_code" => if t.closingCodeId.Some? then Row("ClosingCode", t.closingCodeId.value) else NoneValue
    case "ticket_closing_code_id" => if t.closingCodeId.Some? then Number(t.closingCodeId.value) else NoneValue
    case "ticket_ans" => Row("ANS", t.ansId)
    case "ticket_ans_id" => Number(t.ansId)
    case "reporter_user" => KeyRow("User", t.reporterUser)
    case "reporter_user_id" => Str(t.reporterUser)
    case "create_at" => Moment(t.createdAt)
    case "update_at" => Moment(t.updatedAt)
    case "assigned_to" => AssignedValue(t.assignedTo)
    case "assigned_to_id" => if t.assignedTo.Some? then Str(t.assignedTo.value) else NoneValue
    case "closing_date" => if t.closingDate.Some? then Moment(t.closingDate.value) else NoneValue
    case "estimated_closing_date" =>
      if t.estimatedClosingDate.Some? then Moment(t.estimatedClosingDate.value) else NoneValue
    case "status_id" => Row("Status", t.statusId)
    case "status_id_id" => Number(t.statusId)
    case _ => NoneValue
  }

  /** A `Ticket` instance as the attributes it has. */
  function TicketInstance(t: Ticket): (r: map<string, Value>)
    ensures r.Keys == TicketAttributes
    ensures forall a :: a in TicketForeignKeys ==> a in r && (r[a].Row? || r[a].KeyRow? || r[a] == NoneValue)
    ensures r["sub_program_name"] == KeyRow("SubProgram", t.subProgramName)
    ensures r["sub_program_name_id"] == Str(t.subProgramName)
  {
    map attr | attr in TicketAttributes :: TicketAttribute(t, attr)
  }

  /** A deleted ticket is summarised by its sub-program row, the ninth listed
      attribute: a ticket always has one, and none of the eight before it,
      so its `ticket_title`, the last listed attribute, is never reached. */
  lemma {:induction false} TicketSummaryExample(t: Ticket)
    ensures FirstPresent(NameFields, TicketInstance(t)) == Some(8)
    ensures TicketInstance(t)[NameFields[8]] == KeyRow("SubProgram", t.subProgramName)
    ensures NameFields[12] == "ticket_title" && NameFields[12] in TicketInstance(t)
  {
    var inst := TicketInstance(t);
    TicketLacksEarlyNames();
    FirstPresentAt(NameFields, inst, 8);
  }

  /** No ticket attribute is among the first eight listed. */
  lemma TicketLacksEarlyNames()
    ensures forall j :: 0 <= j < 8 ==> NameFields[j] !in TicketAttributes
  {
    assert "name" !in TicketAttributes && "title" !in TicketAttributes;
    assert "network_user" !in TicketAttributes && "client_name" !in TicketAttributes;
    assert "service_name" !in TicketAttributes && "rol_name" !in TicketAttributes;
    assert "priority_name" !in TicketAttributes && "program_name" !in TicketAttributes;
  }
}
