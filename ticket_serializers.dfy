/** Two rules of apps/tickets/serializers.py: the full name the user
    serializer shows, and the closing date that the ticket update sets when
    the new status is a closing one. */
module TicketSerializers {
  import opened Text
  import opened Clock
  import opened Models

  /** A present, non-empty optional name (Python truthiness). */
  predicate Given(s: Option<string>) { s.Some? && s.value != "" }

  /** `EUserSerializer.get_full_name(obj)`: name, middle name, last name and
      second last name, the optional two only when given, joined by single
      spaces. */
  method FullName(u: EUser) returns (full: string)
    ensures full == u.name
      + (if Given(u.middleName) then " " + u.middleName.value else "")
      + " " + u.lastName
      + (if Given(u.secondLastName) then " " + u.secondLastName.value else "")
    ensures |full| > |u.name| && full[..|u.name|] == u.name
  {
    var parts := [u.name];
    if Given(u.middleName) {
      parts := parts + [u.middleName.value];
    }
    parts := parts + [u.lastName];
    if Given(u.secondLastName) {
      parts := parts + [u.secondLastName.value];
    }
    full := Join(parts, " ");
    JoinSpaced(parts);
  }

  /** A join of two or more parts is the first part, a space, and the join
      of the others. */
  lemma {:induction false} JoinCons(parts: seq<string>)
    requires |parts| >= 2
    ensures Join(parts, " ") == parts[0] + " " + Join(parts[1..], " ")
  {
  }

  /** Joining with a separator puts it between neighbours and nowhere else,
      for the two to four parts the full name has. */
  lemma {:induction false} JoinSpaced(parts: seq<string>)
    requires 2 <= |parts| <= 4
    ensures |parts| == 2 ==> Join(parts, " ") == parts[0] + " " + parts[1]
    ensures |parts| == 3 ==> Join(parts, " ") == parts[0] + " " + parts[1] + " " + parts[2]
    ensures |parts| == 4 ==> Join(parts, " ") == parts[0] + " " + parts[1] + " " + parts[2] + " " + parts[3]
  {
    var n := |parts|;
    var last := parts[n - 1..];
    assert Join(last, " ") == parts[n - 1];
    var two := parts[n - 2..];
    assert two[1..] == last;
    JoinCons(two);
    if n >= 3 {
      var three := parts[n - 3..];
      assert three[1..] == two;
      JoinCons(three);
      if n == 4 {
        assert parts[1..] == three;
        JoinCons(parts);
      } else {
        assert parts == three;
      }
    } else {
      assert parts == two;
    }
  }

  // ---------------------------------------------------------------------
  // TicketUpdateSerializer.update

  const ClosingStatusNames: seq<string> := ["cerrado", "closed", "resuelto", "resolved"]

  /** The update carries a status, and its name, lower-cased, is a closing
      one. `status_id` holds a status row whenever it is present. */
  predicate ClosesTicket(data: map<string, Value>)
  {
    var s := Get(data, "status_id");
    Truthy(s) && s.StatusRow? && Lower(s.status.name) in ClosingStatusNames
  }

  /** The data handed on to the generic update; `now` stands for
      `timezone.now()`. A closing status puts the clock reading under
      `closing_date`, over any date the caller sent; nothing else changes. */
  function PreparedUpdate(data: map<string, Value>, now: Instant): (r: map<string, Value>)
    ensures ClosesTicket(data) ==> Get(r, "closing_date") == Moment(now)
    ensures !ClosesTicket(data) ==> r == data
    ensures forall k :: k in data && k != "closing_date" ==> k in r && r[k] == data[k]
    ensures r.Keys <= data.Keys + {"closing_date"}
  {
    if ClosesTicket(data) then data["closing_date" := Moment(now)] else data
  }

  /** The `validated_data` dictionary that `update` changes in place. */
  class ValidatedData {
    var entries: map<string, Value>

    constructor (entries: map<string, Value>)
      ensures this.entries == entries
    {
      this.entries := entries;
    }

    /** The body of `update` before it calls the generic update. */
    method ApplyClosingRule(now: Instant)
      modifies this
      ensures entries == PreparedUpdate(old(entries), now)
    {
      var status := Get(entries, "status_id");
      if Truthy(status) {
        if status.StatusRow? && Lower(status.status.name) in ClosingStatusNames {
          entries := entries["closing_date" := Moment(now)];
        }
      }
    }
  }

  /** Unless the caller already sent this very clock reading, the closing
      date ends up as the clock reading exactly when the status closes the
      ticket. */
  lemma {:induction false} ClosingDateSetIff(data: map<string, Value>, now: Instant)
    requires Get(data, "closing_date") != Moment(now)
    ensures Get(PreparedUpdate(data, now), "closing_date") == Moment(now) <==> ClosesTicket(data)
  {
  }

  /** The status name is matched in any case. */
  lemma {:induction false} ClosingStatusIgnoresCase(st: Status, data: map<string, Value>)
    requires Get(data, "status_id") == StatusRow(st)
    ensures ClosesTicket(data) <==> Lower(st.name) in {"cerrado", "closed", "resuelto", "resolved"}
  {
  }

  /** Applying the rule twice with the same clock reading is applying it once. */
  lemma {:induction false} PreparedUpdateIdempotent(data: map<string, Value>, now: Instant)
    ensures PreparedUpdate(PreparedUpdate(data, now), now) == PreparedUpdate(data, now)
  {
    if ClosesTicket(data) {
      assert Get(PreparedUpdate(data, now), "status_id") == Get(data, "status_id");
    }
  }
}
