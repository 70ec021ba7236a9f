/** The ticketing records (apps/tickets/models.py): their shapes, the text
    each renders with `__str__`, the dynamic values the serializers and
    validators pass around in dictionaries, and the working-hours table
    with its unique weekday. Foreign keys are held in the records as the
    primary key of the row they point at. */
module Models {
  import opened Text
  import opened Clock

  /** A value held in a request dictionary or in a model attribute.
      Equality of two values is Python's `==` on them for strings, numbers
      and model rows: a row equals only a row of the same model with the
      same key, and never a string or `None`, because Django's
      `Model.__eq__` returns `NotImplemented` for anything that is not a
      model instance and Python then falls back to identity. */
  datatype Value =
    | NoneValue
    | Str(s: string)
    | Number(n: int)
    | Flag(b: bool)
    | Moment(t: Instant)
    | StatusRow(status: Status)
    | Row(model: string, pk: int)        // a model instance with an integer key
    | KeyRow(model: string, key: string) // a model instance with a text key

  /** Python truthiness: `None`, `''`, `0` and `False` are false; model
      instances and datetimes are always true. */
  predicate Truthy(v: Value)
  {
    match v
    case NoneValue => false
    case Str(s) => s != ""
    case Number(n) => n != 0
    case Flag(b) => b
    case _ => true
  }

  /** `d.get(key)`. */
  function Get(d: map<string, Value>, key: string): (v: Value)
    ensures key !in d ==> v == NoneValue
  {
    if key in d then d[key] else NoneValue
  }

  datatype Service = Service(
    id: int,
    name: Option<string>,
    description: Option<string>,
    estimatedSolutionTime: Option<ClockTime>)

  datatype EUser = EUser(
    networkUser: string,
    name: string,
    middleName: Option<string>,
    lastName: string,
    secondLastName: Option<string>,
    email: Option<string>,
    phone: Option<string>,
    clientName: string,
    serviceId: int,
    roleName: string)

  datatype ClosingCode = ClosingCode(id: int, name: Option<string>, description: Option<string>)

  datatype Status = Status(id: int, name: string, description: Option<string>, isBacklog: bool)

  /** A ticket row. Each foreign key is held as the key of the row it
      points to (the `<field>_id` column); `AssignedValue` and
      `Mixins.TicketAttribute` turn a key back into the row Python reads. */
  datatype Ticket = Ticket(
    id: int,
    title: string,
    description: string,
    attachments: Option<string>,
    serviceId: int,
    priorityName: string,
    closingCodeId: Option<int>,
    ansId: int,
    reporterUser: string,
    createdAt: Instant,
    updatedAt: Instant,
    assignedTo: Option<string>,
    closingDate: Option<Instant>,
    estimatedClosingDate: Option<Instant>,
    statusId: int,
    subProgramName: string)

  datatype ReportedTime = ReportedTime(
    id: int,
    dateReported: Instant,
    reportedTime: ClockTime,
    ticketId: int,
    networkUser: Option<string>)

  datatype Note = Note(
    id: int,
    text: string,
    visibleToClient: bool,
    networkUser: Option<string>,
    ticketId: int)

  datatype WorkingHours = WorkingHours(id: int, weekDay: string, startTime: ClockTime, endTime: ClockTime)

  /** `ticket.assigned_to` as Python reads it: `None` when unassigned,
      otherwise the `EUser` row whose primary key is that network user. */
  function AssignedValue(assignedTo: Option<string>): (v: Value)
    ensures v == NoneValue <==> assignedTo.None?
    ensures assignedTo.Some? ==> v.KeyRow? && v.model == "EUser" && v.key == assignedTo.value
    ensures !v.Str?
  {
    match assignedTo
    case None => NoneValue
    case Some(k) => KeyRow("EUser", k)
  }

  /** `s or fallback` for an optional character field. */
  function OrElse(s: Option<string>, fallback: string): (r: string)
    ensures s.Some? && s.value != "" ==> r == s.value
    ensures s.None? || s.value == "" ==> r == fallback
  {
    if s.Some? && s.value != "" then s.value else fallback
  }

  /** `Ticket.__str__`. */
  function TicketText(t: Ticket): string
  {
    "Ticket #" + IntToString(t.id) + " - " + t.title
  }

  /** `Service.__str__`: its name, or `Servicio <id>` when it has none. */
  function ServiceText(s: Service): (r: string)
    ensures r != ""
    ensures s.name.Some? && s.name.value != "" ==> r == s.name.value
    ensures s.name.None? || s.name.value == "" ==> r == "Servicio " + IntToString(s.id)
  {
    OrElse(s.name, "Servicio " + IntToString(s.id))
  }

  /** `ClosingCode.__str__`: its name, or `Código <id>` when it has none. */
  function ClosingCodeText(c: ClosingCode): (r: string)
    ensures r != ""
    ensures c.name.Some? && c.name.value != "" ==> r == c.name.value
    ensures c.name.None? || c.name.value == "" ==> r == "Código " + IntToString(c.id)
  {
    OrElse(c.name, "Código " + IntToString(c.id))
  }

  /** `EUser.__str__`. */
  function EUserText(u: EUser): (r: string)
    ensures |r| == |u.name| + |u.lastName| + |u.networkUser| + 4
    ensures r[..|u.name|] == u.name
    ensures r[|u.name|..|u.name| + |u.lastName| + 2] == " " + u.lastName + " "
    ensures r[|r| - |u.networkUser| - 2..] == "(" + u.networkUser + ")"
  {
    u.name + " " + u.lastName + " (" + u.networkUser + ")"
  }

  /** The two renderings the ticket tests expect. */
  lemma {:induction false} TicketTextExamples(a: Ticket, b: Ticket)
    requires a.id == 1 && a.title == "Test Ticket"
    requires b.id == 2 && b.title == "Another Ticket"
    ensures TicketText(a) == "Ticket #1 - Test Ticket"
    ensures TicketText(b) == "Ticket #2 - Another Ticket"
  {
  }

  /** `ReportedTime.__str__`. */
  function ReportedTimeText(r: ReportedTime): string
  {
    "Tiempo #" + IntToString(r.id) + " - Ticket " + IntToString(r.ticketId)
  }

  /** `Note.__str__`. */
  function NoteText(n: Note): string
  {
    "Nota #" + IntToString(n.id) + " - Ticket " + IntToString(n.ticketId)
  }

  /** `WorkingHours.__str__`. */
  function WorkingHoursText(w: WorkingHours): string
  {
    "Horas Laborales #" + IntToString(w.id) + " - " + w.weekDay
  }

  /** After a fixed prefix, a rendered id is followed by a space: the first
      space tells where the id ends, so id and remainder can be read back. */
  lemma {:induction false} PrefixedIdUnique(p: string, i: int, rest: string, j: int, rest': string)
    requires |rest| > 0 && rest[0] == ' ' && |rest'| > 0 && rest'[0] == ' '
    requires p + IntToString(i) + rest == p + IntToString(j) + rest'
    ensures i == j && rest == rest'
  {
    var x, y := IntToString(i), IntToString(j);
    var whole := p + x + rest;
    assert whole[|p|..] == x + rest;
    assert whole[|p|..] == y + rest';
    assert x == (x + rest)[..|x|] == (y + rest')[..|y|] == y;
    assert rest == (x + rest)[|x|..] == (y + rest')[|y|..] == rest';
    IntToStringInjective(i, j);
  }

  /** `Ticket #<id> - <title>` determines both the id and the title. */
  lemma {:induction false} TicketTextInjective(a: Ticket, b: Ticket)
    requires TicketText(a) == TicketText(b)
    ensures a.id == b.id && a.title == b.title
  {
    assert TicketText(a) == "Ticket #" + IntToString(a.id) + (" - " + a.title);
    assert TicketText(b) == "Ticket #" + IntToString(b.id) + (" - " + b.title);
    PrefixedIdUnique("Ticket #", a.id, " - " + a.title, b.id, " - " + b.title);
    assert a.title == (" - " + a.title)[3..] == (" - " + b.title)[3..] == b.title;
  }

  /** The two ids embedded by `ReportedTime.__str__` and `Note.__str__` can
      be read back from the text. */
  lemma {:induction false} TwoIdTextInjective(p: string, i: int, t: int, j: int, u: int)
    requires p + IntToString(i) + " - Ticket " + IntToString(t) == p + IntToString(j) + " - Ticket " + IntToString(u)
    ensures i == j && t == u
  {
    var sep := " - Ticket ";
    var x, y := IntToString(t), IntToString(u);
    ConcatAssoc(p + IntToString(i), sep, x);
    ConcatAssoc(p + IntToString(j), sep, y);
    assert (sep + x)[0] == ' ' && (sep + y)[0] == ' ';
    PrefixedIdUnique(p, i, sep + x, j, sep + y);
    ConcatDropPrefix(sep, x);
    ConcatDropPrefix(sep, y);
    IntToStringInjective(t, u);
  }

  lemma {:induction false} ConcatAssoc(a: string, b: string, c: string)
    ensures a + b + c == a + (b + c)
  {
  }

  lemma {:induction false} ConcatDropPrefix(a: string, b: string)
    ensures (a + b)[|a|..] == b
  {
  }

  lemma {:induction false} ReportedTimeTextInjective(a: ReportedTime, b: ReportedTime)
    requires ReportedTimeText(a) == ReportedTimeText(b)
    ensures a.id == b.id && a.ticketId == b.ticketId
  {
    TwoIdTextInjective("Tiempo #", a.id, a.ticketId, b.id, b.ticketId);
  }

  lemma {:induction false} NoteTextInjective(a: Note, b: Note)
    requires NoteText(a) == NoteText(b)
    ensures a.id == b.id && a.ticketId == b.ticketId
  {
    TwoIdTextInjective("Nota #", a.id, a.ticketId, b.id, b.ticketId);
  }

  lemma {:induction false} WorkingHoursTextInjective(a: WorkingHours, b: WorkingHours)
    requires WorkingHoursText(a) == WorkingHoursText(b)
    ensures a.id == b.id && a.weekDay == b.weekDay
  {
    var p := "Horas Laborales #";
    assert WorkingHoursText(a) == p + IntToString(a.id) + (" - " + a.weekDay);
    assert WorkingHoursText(b) == p + IntToString(b.id) + (" - " + b.weekDay);
    PrefixedIdUnique(p, a.id, " - " + a.weekDay, b.id, " - " + b.weekDay);
    assert a.weekDay == (" - " + a.weekDay)[3..] == (" - " + b.weekDay)[3..] == b.weekDay;
  }

  /** Two services without a name render differently exactly when their ids
      differ. */
  lemma {:induction false} UnnamedServiceTextInjective(a: Service, b: Service)
    requires a.name.None? || a.name.value == ""
    requires b.name.None? || b.name.value == ""
    requires ServiceText(a) == ServiceText(b)
    ensures a.id == b.id
  {
    var p := "Servicio ";
    assert ServiceText(a) == p + IntToString(a.id);
    assert ServiceText(b) == p + IntToString(b.id);
    assert IntToString(a.id) == ServiceText(a)[|p|..] == ServiceText(b)[|p|..] == IntToString(b.id);
    IntToStringInjective(a.id, b.id);
  }

  /** The unique constraint on `week_day`: no two rows share a weekday. */
  ghost predicate UniqueWeekDays(rows: seq<WorkingHours>)
  {
    forall i, j :: 0 <= i < j < |rows| ==> rows[i].weekDay != rows[j].weekDay
  }

  predicate HasWeekDay(rows: seq<WorkingHours>, day: string)
  {
    exists i :: 0 <= i < |rows| && rows[i].weekDay == day
  }

  /** The `working-hours` table; the database refuses a row whose weekday is
      already taken. */
  class WorkingHoursTable {
    var rows: seq<WorkingHours>

    ghost predicate Valid()
      reads this
    {
      UniqueWeekDays(rows)
    }

    constructor ()
      ensures Valid() && rows == []
    {
      rows := [];
    }

    /** `WorkingHours.objects.create(...)`: fails (an integrity error) when the
        weekday is taken, and otherwise appends the row. */
    method Insert(row: WorkingHours) returns (ok: bool)
      requires Valid()
      modifies this
      ensures Valid()
      ensures ok <==> !HasWeekDay(old(rows), row.weekDay)
      ensures rows == if ok then old(rows) + [row] else old(rows)
    {
      ok := !HasWeekDay(rows, row.weekDay);
      if ok {
        rows := rows + [row];
      }
    }

    /** Saving a changed row at position `k`: fails when another row already
        has the new weekday. */
    method Replace(k: nat, row: WorkingHours) returns (ok: bool)
      requires Valid() && k < |rows|
      modifies this
      ensures Valid()
      ensures ok <==> forall i :: 0 <= i < |old(rows)| && i != k ==> old(rows)[i].weekDay != row.weekDay
      ensures rows == if ok then old(rows)[k := row] else old(rows)
    {
      ok := forall i :: 0 <= i < |rows| && i != k ==> rows[i].weekDay != row.weekDay;
      if ok {
        rows := rows[k := row];
      }
    }
  }

  /** In a table that satisfies the constraint a weekday picks out at most
      one row. */
  lemma {:induction false} AtMostOneRowPerWeekDay(rows: seq<WorkingHours>, i: nat, j: nat)
    requires UniqueWeekDays(rows)
    requires i < |rows| && j < |rows| && rows[i].weekDay == rows[j].weekDay
    ensures i == j
  {
  }
}
