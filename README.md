# Ticketing helpdesk rules in Dafny

This project models the self-contained rules of a Django ticketing and
helpdesk backend, where clients report issues that are routed by service and
priority, assigned to agents and closed. It covers:

- **Business-time arithmetic** (`business_time.dfy`, on top of `clock.dfy`).
  This is the business time between two instants: Monday to Friday,
  09:00 to 18:00. It also covers the estimated closing date of a ticket,
  which depends on its service's estimated solution time and on the
  priority label.
- **String helpers** (`helpers.dfy`). Phone formatting, file-name
  sanitising and the e-mail pattern.
- **Validators** (`validators.dfy`). The single-value validators
  (phone, network user, file extension, size, priority, positive number,
  business hour). Also the ticket and user record validators, which
  collect an ordered error list, and the ticket-closure check.
- **Authentication serializer rules** (`auth_serializers.dfy`). The LDAP
  required-field check and the split of a full name into first and last
  names.
- **Ticket serializer rules** (`ticket_serializers.dfy`). The user's full
  name, and the rule that a closing status stamps the closing date.
- **Permissions** (`permissions.dfy`). The five permission classes, as
  predicates over the HTTP method, the user's flags and the object.
- **Delete summary** (`mixins.dfy`). The `id`/`name` summary returned when
  an object is deleted.
- **Records** (`models.dfy`). Record shapes, the `__str__` renderers, and
  the working-hours table with its unique weekday.

An instant is a day number, the proleptic Gregorian ordinal of Python's
`date.toordinal()`, paired with a second of the day. The weekday is
computed from the day number the way Python computes it. Durations are
whole seconds. Priority multipliers are held in quarters: crítica 1,
alta 2, media 4, baja 6. This makes every adjusted duration an exact
number of seconds. A `real` statement of the same formula is proved equal
to it. Clock readings (`datetime.now()`, `timezone.now()`) are parameters.

Character classes follow Python over ASCII. `str.lower()` also covers the
Latin-1 capitals, so `CRÍTICA` lower-cases to `crítica`. Regular
expressions anchored with `$` are modelled exactly as Python's `re.match`
treats them: `$` also matches before one final newline.

## Model

| member | source | states |
|---|---|---|
| BusinessTime.BusinessHoursDiff | core/utils/helpers.py:89-124 | The day-stepping loop ends (each pass moves `current` to a later day's 09:00). It returns the reference sum: each day from the start's day to the end's day contributes its weekday window clamped to [start, end] |
| BusinessTime.WeekdayPortion | core/utils/helpers.py:99-116 | One pass of the loop: on a weekday, the 09:00-18:00 window of the current day clamped to [current, end], as seconds; nothing on Saturday or Sunday |
| BusinessTime.DayContribution | core/utils/helpers.py:99-116 | A day adds between 0 and 9 hours. Saturday and Sunday add 0. A positive contribution is exactly the length of 09:00-18:00 clamped to [start, end], and that segment lies inside [start, end] |
| BusinessTime.BusinessSecondsZeroUnlessBefore | core/utils/helpers.py:94-97 | The result is 0 whenever the start is not before the end |
| BusinessTime.BusinessSecondsBounds | core/utils/helpers.py:101-119 | The result is never negative and never exceeds the time elapsed between start and end |
| BusinessTime.BusinessSecondsPerWeekday | core/utils/helpers.py:99-116 | The result is at most 9 hours times the number of Monday-to-Friday days visited |
| BusinessTime.SegmentsDisjoint | core/utils/helpers.py:101-119 | When two different days both contribute, the earlier day's segment ends before the later day's begins, and together they add less than the elapsed time |
| BusinessTime.BusinessSecondsAdditive | core/utils/helpers.py:89-124 | Business time from a to b equals business time from a to m plus from m to b, for every m between them |
| BusinessTime.MondayToTuesdayExample | core/utils/helpers.py:89-124 | Monday 08:00 to Tuesday 12:00 is 12 business hours |
| BusinessTime.FridayToMondayExample | core/utils/helpers.py:89-124 | Friday 17:00 to Monday 10:00 is 2 business hours; the weekend adds nothing |
| BusinessTime.DefaultHours | core/utils/helpers.py:54-61 | The default allowance is between 4 and 48 hours |
| BusinessTime.EstimatedClosingDate | core/utils/helpers.py:23-62 | The due instant is never earlier than the creation instant, or than the clock reading when no creation date is given |
| BusinessTime.EstimatedClosingDateScaled | core/utils/helpers.py:38-51 | With an estimated time, due − creation = (hour + minute/60) × multiplier hours. The multiplier is the one of the lower-cased label (crítica 0.25, alta 0.5, media 1.0, baja 1.5, otherwise 1.0) |
| BusinessTime.EstimatedClosingDateDefault | core/utils/helpers.py:54-62 | With no service, or no estimated time, due − creation is 4, 8, 24 or 48 hours for crítica, alta, media and baja, and 24 hours for any other label |
| BusinessTime.EstimatedClosingDateUsesNow | core/utils/helpers.py:31-32 | A missing creation date is replaced by the clock reading |
| BusinessTime.EstimatedClosingDateIgnoresCase | core/utils/helpers.py:45-61 | The label is matched case-insensitively |
| BusinessTime.UnknownPriorityIsMedia | core/utils/helpers.py:45-61 | Any label outside the four gets exactly the due date of a label reading `media` in any case |
| BusinessTime.UrgencyOrder | core/utils/helpers.py:38-62 | Labels reading crítica, alta, media and baja in any case are due in that order, each no later than the next |
| Text.Lower | core/utils/helpers.py:45 | `str.lower()` keeps the length and maps each character on its own: ASCII and Latin-1 capitals move to lower case, everything else is unchanged |
| Text.Digits | core/utils/helpers.py:70 | `re.sub(r'\D', '', s)` yields only digits and is never longer than its input. Digits of a concatenation concatenate (`DigitsAppend`), and a string of digits is its own result |
| Helpers.FormatPhoneNumber | core/utils/helpers.py:65-78 | The digits of the input laid out by count: ten as `(ddd) ddd-dddd`, eleven as `+d (ddd) ddd-dddd`, otherwise bare. Its contract is in the three lemmas below |
| Helpers.FormatPhoneNumberShape | core/utils/helpers.py:70-78 | Ten digits give `(ddd) ddd-dddd`, eleven give `+d (ddd) ddd-dddd`, any other count gives the bare digits |
| Helpers.FormatPhoneNumberKeepsDigits | core/utils/helpers.py:70-78 | The output's digit sequence equals the input's digit sequence |
| Helpers.FormatPhoneNumberIdempotent | core/utils/helpers.py:65-78 | Formatting a formatted number changes nothing |
| Helpers.KeepAllowed | core/utils/helpers.py:132 | The first substitution keeps only word characters, whitespace, `.` and `-`, and never lengthens the name |
| Helpers.KeepAllowedOne | core/utils/helpers.py:132 | One character survives the first substitution exactly when it is a word character, whitespace, `.` or `-` |
| Helpers.KeepAllowedAppend | core/utils/helpers.py:132 | The first substitution of a concatenation is the concatenation of the substitutions, so every kept character survives, in order, and nothing else |
| Helpers.UnderscoreSpaces | core/utils/helpers.py:134 | The second substitution leaves no whitespace. Over kept characters, its output holds only word characters, `.`, `-` and `_` |
| Helpers.UnderscoreSpacesKeepsWord | core/utils/helpers.py:134 | A prefix without whitespace passes through the second substitution unchanged |
| Helpers.UnderscoreSpacesRun | core/utils/helpers.py:134 | A maximal non-empty run of whitespace becomes exactly one `_` |
| Helpers.UnderscoreSpacesStep | core/utils/helpers.py:134 | A word, a whitespace run and a rest not starting with whitespace become the word, `_`, and the rewritten rest |
| Helpers.SanitizeFilename | core/utils/helpers.py:127-135 | The sanitised name has no whitespace and only word characters, `.`, `-` and `_` |
| Helpers.SanitizeFilenameDropsUnsafe | core/utils/helpers.py:131-132 | An unsafe character is removed wherever it stands, and the rest is sanitised as if it were not there |
| Helpers.SanitizeFilenameJoinsWords | core/utils/helpers.py:131-134 | Two safe words separated by any run of whitespace become the two words joined by one `_` |
| Helpers.SanitizeFilenameFixedPoints | core/utils/helpers.py:127-135 | A name is left unchanged iff it already consists only of word characters, `.` and `-` |
| Helpers.SanitizeFilenameIdempotent | core/utils/helpers.py:127-135 | Sanitising twice gives the same as sanitising once |
| Helpers.IsEmailWordCorrect | core/utils/helpers.py:85-86 | The decision procedure (first `@`, last `.`) accepts a string iff some split matches the unanchored pattern `[a-zA-Z0-9._%+-]+@[a-zA-Z0-9.-]+\.[a-zA-Z]{2,}` |
| Helpers.ValidateEmailCorrect | core/utils/helpers.py:81-86 | `validate_email` accepts exactly the words of the pattern, each with or without one final newline |
| Helpers.EmailWordShape | core/utils/helpers.py:85-86 | An accepted word has exactly one `@` with a non-empty part before it, and ends in `.` followed by two or more letters |
| Helpers.EmailAccepted | core/utils/helpers.py:85-86 | Any non-empty local part and domain of the allowed characters, dots included, with two or more final letters, form an accepted address |
| Helpers.EmailTrailingNewlineAccepted | core/utils/helpers.py:85-86 | An accepted word followed by one newline is still accepted |
| Helpers.EmailShortSuffixExample | core/utils/helpers.py:85-86 | A one-letter final suffix is rejected |
| Helpers.EmailEmptyLocalPartExample | core/utils/helpers.py:85-86 | An empty part before `@` is rejected |
| Helpers.EmailTwoAtSignsExample | core/utils/helpers.py:85-86 | Two `@` signs are rejected |
| Helpers.IsEmailWord | core/utils/helpers.py:85-86 | The unanchored pattern tested by reading the `@` at the first `@` and the dot at the last dot; its contract is `IsEmailWordCorrect` |
| Helpers.ValidateEmail | core/utils/helpers.py:81-86 | `re.match` with `^…$`: the word test on the whole string, or on the string less one final newline; its contract is `ValidateEmailCorrect` |
| Validators.ValidatePhoneNumber | core/utils/validators.py:9-23 | Accepts iff the number of digits is between 10 and 15 inclusive, returning the original unstripped value. Otherwise it raises `invalid_phone` |
| Validators.PhoneValidationIgnoresFormatting | core/utils/validators.py:14-23 | A number and its formatted form are accepted alike |
| Validators.PunctuatedPhoneAccepted | core/utils/validators.py:14-23 | Any ten digits punctuated as `(ddd) ddd-dddd` are accepted |
| Validators.ShortPhoneRejected | core/utils/validators.py:17-21 | A number of fewer than ten digits is rejected |
| Validators.ValidateNetworkUser | core/utils/validators.py:26-45 | Accepts iff the value matches the pattern and is at least 3 characters long. A pattern failure, the empty string included, raises `invalid_network_user` before length is considered; otherwise a short value raises `network_user_too_short` |
| Validators.NetworkUserCheckOrder | core/utils/validators.py:31-43 | `""` and `a!` report the characters, `ab` reports the length, and `abc` passes |
| Validators.NetworkUserTrailingNewline | core/utils/validators.py:31-43 | As written, `ab` followed by a newline is accepted |
| Validators.ValidateNetworkUserStrict | core/utils/validators.py:30-43 | Corrected check: accepts iff the whole value is letters, digits, `.`, `_` and `-` and is at least 3 characters long |
| Validators.StrictNetworkUserHasOnlyAllowedChars | core/utils/validators.py:30-33 | The corrected check never accepts a newline. Whatever it accepts, the check as written accepts too |
| Validators.SplitExt | core/utils/validators.py:60 | `os.path.splitext` on POSIX: stem plus extension is the path, and the extension is empty or a dot followed by no dot or slash. A non-empty extension has a non-dot character before it in the stem's last path component |
| Validators.SplitExtAt | core/utils/validators.py:60 | A last dot in the last component, preceded there by a non-dot, starts the extension |
| Validators.ValidateFileExtension | core/utils/validators.py:48-68 | Accepts iff the lower-cased final extension is one of the 13 listed. Otherwise it raises `invalid_extension` |
| Validators.FinalExtensionDecides | core/utils/validators.py:60-62 | For a stem not ending in a dot or slash and an extension (a dot, then no dot or slash), the name is accepted iff the lower-cased extension is listed |
| Validators.ExtensionCaseInsensitive | core/utils/validators.py:60-62 | Lower-casing the extension never changes the outcome |
| Validators.ExtensionIgnoresDirectory | core/utils/validators.py:60-62 | Any directory prefix, dotted or not, leaves the outcome that of the bare file name |
| Validators.NoExtensionExample | core/utils/validators.py:60-62 | `memo` is rejected |
| Validators.HiddenFileExample | core/utils/validators.py:60-62 | `.pdf` has no extension and is rejected |
| Validators.DoubleExtensionRejected | core/utils/validators.py:60-62 | A name ending in `.pdf` followed by an extension that is not listed is rejected: only the final extension counts |
| Validators.ValidateFileSize | core/utils/validators.py:71-83 | Accepts iff the size is at most 10485760 bytes. Otherwise it raises `file_too_large` |
| Validators.ValidatePriority | core/utils/validators.py:86-98 | Accepts iff the lower-cased value is baja, media, alta or crítica. Otherwise it raises `invalid_priority` |
| Validators.PriorityExamples | core/utils/validators.py:90-92 | `Alta` is accepted and `urgente` rejected |
| Validators.AccentedPriorityExample | core/utils/validators.py:92 | `CRÍTICA` is accepted |
| Validators.ValidatePositiveNumber | core/utils/validators.py:101-111 | Accepts iff the value is greater than 0. Otherwise it raises `not_positive` |
| Validators.ValidateBusinessHours | core/utils/validators.py:114-124 | Accepts iff the hour is between 9 and 17. Otherwise it raises `outside_business_hours` |
| Validators.ThresholdBoundaries | core/utils/validators.py:75-124 | 10485760 bytes pass and one byte more fails. 0 is not positive. 09:00 and 17:59:59 pass; 08:59:59 and 18:00 fail |
| Validators.TextFieldError | core/utils/validators.py:140-149 | A title or description yields no error iff it is present, truthy and at least the minimum length. Absent or falsy, it yields the required message; too short, the too-short message |
| Validators.PresenceError | core/utils/validators.py:152-161 | A required field yields no error iff it is truthy, and its required message otherwise |
| Validators.ValidateTicketData | core/utils/validators.py:132-163 | Builds the error list field by field, and `valid` is true iff that list is empty |
| Validators.TicketErrorsEmptyIff | core/utils/validators.py:137-163 | The list is empty iff title (≥ 5), description (≥ 10), service, priority and reporter all pass |
| Validators.TicketTextErrorsPerField | core/utils/validators.py:140-149 | Each title and description message is in the list iff its own field fails that check |
| Validators.TicketPresenceErrorsPerField | core/utils/validators.py:151-161 | The service, priority and reporter messages are each in the list iff that field is absent or falsy |
| Validators.TicketErrorsOrdered | core/utils/validators.py:137-161 | At most 5 errors, each about one field. The fields strictly increase: title, description, service, priority, reporter |
| Validators.TicketLengthBoundaries | core/utils/validators.py:140-149 | A 4-character title is too short and a 5-character one passes. A 9-character description is too short and a 10-character one passes |
| Validators.ValidateTicketClosure | core/utils/validators.py:166-180 | Closable iff assigned, with a closing code and at least one note; the message is empty iff closable |
| Validators.TicketClosureFirstFailure | core/utils/validators.py:170-180 | Only the first failing check is reported: assignment, then closing code, then notes |
| Validators.EmailError | core/utils/validators.py:203-206 | The e-mail yields no error iff it is absent or empty, or it matches the pattern |
| Validators.PhoneFieldError | core/utils/validators.py:209-213 | The phone yields no error iff it is absent or empty, or it has 10 to 15 digits |
| Validators.ValidateUserData | core/utils/validators.py:188-215 | Builds the error list field by field, and `valid` is true iff that list is empty |
| Validators.UserErrorsEmptyIff | core/utils/validators.py:192-215 | Valid iff name and last name are given and any given e-mail and phone are well formed. An absent e-mail or phone is never an error |
| Validators.UserEmailErrorIff | core/utils/validators.py:203-206 | The e-mail message appears iff a given e-mail fails the pattern. This is the same pattern `validate_email` uses |
| Validators.UserPhoneErrorText | core/utils/validators.py:209-213 | A rejected phone is reported by the text of its validation error |
| AuthSerializers.MissingFields | apps/authentication/serializers.py:20 | Lists exactly the required keys absent from the record |
| AuthSerializers.ValidateLdap | apps/authentication/serializers.py:15-27 | Returns the record unchanged iff all five required keys are present. Otherwise the error message lists the missing keys |
| AuthSerializers.LdapOnlyRequiredKeysMatter | apps/authentication/serializers.py:19-27 | Extra keys and the values never change the outcome or the message |
| AuthSerializers.LdapMissingInOrder | apps/authentication/serializers.py:19-25 | Missing keys are reported in the order user, full_name, position, mail, document |
| AuthSerializers.LdapMessageExample | apps/authentication/serializers.py:22-25 | Without `user` and `mail` the record is refused, naming `user` then `mail` |
| AuthSerializers.SplitWhitespace | apps/authentication/serializers.py:38 | `split()` gives non-empty tokens without whitespace |
| AuthSerializers.SplitSkipsLeadingSpaces | apps/authentication/serializers.py:38 | Whitespace in front adds no token: `(sp + t).split()` is `t.split()` |
| AuthSerializers.SplitOfWord | apps/authentication/serializers.py:38 | A non-empty word without whitespace splits into itself alone |
| AuthSerializers.SplitWordThenSpaces | apps/authentication/serializers.py:38 | Token boundaries: a word followed by a whitespace run is the first token, and the split goes on after the run |
| AuthSerializers.SplitKeepsNonSpace | apps/authentication/serializers.py:38 | The tokens concatenated are the input's non-whitespace characters, in order |
| AuthSerializers.StripKeepsSplit | apps/authentication/serializers.py:38 | `strip()` before `split()` changes nothing |
| AuthSerializers.NormalisedKeepsNonSpace | apps/authentication/serializers.py:38-40 | Normalising whitespace loses and reorders no other character |
| AuthSerializers.Strip | apps/authentication/serializers.py:38 | `str.strip()`: the result neither starts nor ends with whitespace; `StripKeepsSplit` shows it splits like the input |
| AuthSerializers.NameParts | apps/authentication/serializers.py:38-40 | The first token of the stripped full name, and the other tokens joined by single spaces; its contract is in the name lemmas below |
| AuthSerializers.FirstNameHasNoSpace | apps/authentication/serializers.py:39 | The first name holds no whitespace |
| AuthSerializers.BlankNameGivesEmptyParts | apps/authentication/serializers.py:38-40 | A blank or empty full name gives empty first and last names |
| AuthSerializers.SingleTokenName | apps/authentication/serializers.py:39-40 | A single token is the first name, and the last name is empty |
| AuthSerializers.NamePartsTwoWords | apps/authentication/serializers.py:38-40 | Two words separated by any whitespace run give exactly those words as first and last name |
| AuthSerializers.SeveralTokensName | apps/authentication/serializers.py:38-40 | With two or more tokens, the first name is the first token and the last name is the rest joined by single spaces. First name, a space and last name give the whitespace-normalised full name |
| TicketSerializers.FullName | apps/tickets/serializers.py:49-57 | The result starts with the name and always includes the last name. Middle name and second last name appear only when non-empty. Parts come in order name, middle, last, second-last, separated by single spaces |
| TicketSerializers.PreparedUpdate | apps/tickets/serializers.py:233-241 | A closing status puts the clock reading under `closing_date`, overwriting any supplied date. Otherwise the data passes unchanged. No other key changes |
| TicketSerializers.ValidatedData.ApplyClosingRule | apps/tickets/serializers.py:233-239 | The in-place update of `validated_data` leaves exactly the prepared update |
| TicketSerializers.ClosingDateSetIff | apps/tickets/serializers.py:236-239 | Unless the caller sent this very reading, the closing date becomes the clock reading iff the status closes the ticket |
| TicketSerializers.ClosingStatusIgnoresCase | apps/tickets/serializers.py:238 | The status closes the ticket iff its lower-cased name is cerrado, closed, resuelto or resolved |
| TicketSerializers.PreparedUpdateIdempotent | apps/tickets/serializers.py:236-239 | Applying the rule twice with one clock reading is applying it once |
| Permissions.AdminOrReadOnly | apps/tickets/permissions.py:9-15 | `IsAdminOrReadOnly.has_permission`: a safe method passes; otherwise a present staff user is needed |
| Permissions.TicketOwnerOrAssigned | apps/tickets/permissions.py:22-31 | `IsTicketOwnerOrAssigned.has_object_permission` as written: staff pass; others pass if the reporter's network user is the username or if `assigned_to == username` holds under Python `==` |
| Permissions.NoteAccess | apps/tickets/permissions.py:38-39 | `IsNoteOwnerOrStaff.has_permission`: a present, authenticated user |
| Permissions.NoteObjectAccess | apps/tickets/permissions.py:41-50 | `IsNoteOwnerOrStaff.has_object_permission`: staff pass; others pass on a safe method exactly when the note is visible to the client |
| Permissions.ManageTickets | apps/tickets/permissions.py:57-58 | `CanManageTickets.has_permission`: a present user who is staff or superuser |
| Permissions.OwnerOrReadOnly | apps/tickets/permissions.py:65-80 | `IsOwnerOrReadOnly.has_object_permission`: safe methods and staff pass; then `user` decides, else `network_user`, else refusal |
| Permissions.AdminOrReadOnlyRule | apps/tickets/permissions.py:9-15 | GET, HEAD and OPTIONS are allowed for any request. Other methods are allowed iff a staff user is present |
| Permissions.AdminOrReadOnlyCaseSensitive | apps/tickets/permissions.py:11 | Method names match exactly: `get` is not safe |
| Permissions.TicketOwnerOrAssignedRule | apps/tickets/permissions.py:22-31 | As written, staff are always allowed, and others are allowed iff the reporter's network user is the username, whatever the method. The assignee plays no part |
| Permissions.AssigneeRefused | apps/tickets/permissions.py:29-31 | As written, a non-staff assignee who is not the reporter is refused. The intended check lets that user in |
| Permissions.TicketOwnerOrAssignedIntended | apps/tickets/permissions.py:22-31 | The intended check: staff, the reporter, or the user whose network user is the assignee's |
| Permissions.TicketOwnerOrAssignedIntendedRule | apps/tickets/permissions.py:22-31 | As intended, non-staff pass iff they are the reporter or the assignee, whatever the method. Whatever the written check allows, the intended one allows too |
| Permissions.NotesNeedAUser | apps/tickets/permissions.py:38-39 | A request without a user may read through `IsAdminOrReadOnly` but never passes the note view check; an authenticated user passes it whatever the method |
| Permissions.NonStaffCannotChangeNotes | apps/tickets/permissions.py:47-50 | A non-staff user never gets an unsafe method on a note |
| Permissions.ManageTicketsRule | apps/tickets/permissions.py:57-58 | Holds iff the user is staff or superuser; a staff user passes both this and the admin-or-read-only check |
| Permissions.SuperuserManagesButCannotWrite | apps/tickets/permissions.py:57-58 | A superuser who is not staff may manage tickets but fails `IsAdminOrReadOnly` on every write |
| Permissions.OwnerOrReadOnlyRule | apps/tickets/permissions.py:65-80 | Safe methods and staff are always allowed. Otherwise `user` decides when present, else `network_user`. An object with neither is denied |
| Permissions.AuthorRefused | apps/tickets/permissions.py:76-78 | As written, a non-staff user is refused a write on their own note or reported time, whose `network_user` is their `EUser` row. The intended check lets them in |
| Permissions.OwnerOrReadOnlyIntended | apps/tickets/permissions.py:65-80 | The intended check: as written, except that `network_user` passes when it names the user, as a string or as the `EUser` row |
| Permissions.OwnerOrReadOnlyIntendedRule | apps/tickets/permissions.py:65-80 | Whatever the written check allows, the intended one allows too. The two agree when `network_user` is absent or a string |
| Permissions.UserAttributeFirst | apps/tickets/permissions.py:75-80 | A non-matching `user` denies even when `network_user` matches. `network_user` alone can allow. Neither attribute denies |
| Permissions.NoteRuleNoLaxerOnWrites | apps/tickets/permissions.py:41-50 | On an unsafe method, whatever the note rule allows, the owner rule allows too |
| Mixins.FirstPresent | core/base/mixins.py:43-46 | Finds the first listed field the instance has, with none before it; it is absent iff no listed field is present |
| Mixins.GetObjectInfo | core/base/mixins.py:28-48 | Keys are a subset of {id, name}. `id` is present iff the instance has `pk`, and then equals it. `name` is present iff some listed field is, and equals the first one's value |
| Mixins.FirstPresentAt | core/base/mixins.py:43-46 | A present field with no present field before it is the one chosen |
| Mixins.NameWinsOverTitle | core/base/mixins.py:43-46 | An instance with `name` is named by it, whatever later fields it has |
| Mixins.FirstPresentOnlyListed | core/base/mixins.py:38-46 | Only the listed fields affect the choice |
| Models.AssignedValue | apps/tickets/models.py:455-464 | `ticket.assigned_to` as Python reads it: `None` when unassigned, otherwise the `EUser` row keyed by that network user; never a string |
| Mixins.TicketAttribute | apps/tickets/models.py:389-489 | Every foreign key attribute of a ticket holds a row, or `None` when the key is null; never a string |
| Mixins.TicketInstance | apps/tickets/models.py:389-489 | A ticket's attributes are exactly its concrete fields, `pk` and the `_id` column of each foreign key. Each foreign key holds a row or `None`. `sub_program_name` holds the `SubProgram` row, and `sub_program_name_id` holds its key |
| Mixins.TicketSummaryExample | core/base/mixins.py:38-46 | A deleted ticket is named by its `SubProgram` row, the 9th listed field, which every ticket has. Its `ticket_title`, the 13th, is never reached |
| Models.ServiceText | apps/tickets/models.py:61-62 | Renders the service name, or `Servicio <id>` when the name is None or empty; never empty |
| Models.UnnamedServiceTextInjective | apps/tickets/models.py:61-62 | Unnamed services render alike only when their ids are equal |
| Models.ClosingCodeText | apps/tickets/models.py:279-280 | Renders the code name, or `Código <id>` when the name is None or empty; never empty |
| Models.EUserText | apps/tickets/models.py:166-167 | Renders `<name> <last_name> (<network_user>)`: the name, then the last name between single spaces, then the parenthesised network user |
| Models.TicketTextExamples | apps/tickets/models.py:496-497 | Ticket 1 "Test Ticket" renders `Ticket #1 - Test Ticket`, and ticket 2 `Ticket #2 - Another Ticket` |
| Models.TicketText | apps/tickets/models.py:496-497 | `Ticket #<id> - <title>`; its contract is `TicketTextInjective` and the examples |
| Models.TicketTextInjective | apps/tickets/models.py:496-497 | `Ticket #<id> - <title>` determines the id and the title |
| Models.ReportedTimeText | apps/tickets/models.py:548-549 | `Tiempo #<id> - Ticket <ticket id>`; its contract is `ReportedTimeTextInjective` |
| Models.NoteText | apps/tickets/models.py:600-601 | `Nota #<id> - Ticket <ticket id>`; its contract is `NoteTextInjective` |
| Models.WorkingHoursText | apps/tickets/models.py:629-630 | `Horas Laborales #<id> - <week day>`; its contract is `WorkingHoursTextInjective` |
| Models.ReportedTimeTextInjective | apps/tickets/models.py:548-549 | The rendering determines the time entry's id and its ticket's id |
| Models.NoteTextInjective | apps/tickets/models.py:600-601 | The rendering determines the note's id and its ticket's id |
| Models.WorkingHoursTextInjective | apps/tickets/models.py:629-630 | The rendering determines the row's id and weekday |
| Models.WorkingHoursTable.Insert | apps/tickets/models.py:609-614 | A row is added iff its weekday is not taken, and the table keeps at most one row per weekday |
| Models.WorkingHoursTable.Replace | apps/tickets/models.py:609-614 | A row is changed iff no other row has the new weekday, and the constraint is kept |
| Models.AtMostOneRowPerWeekDay | apps/tickets/models.py:609-614 | In a valid table a weekday picks out at most one row |

## Left out

- The projection of a due date over the working-hours table is not part of this model. No code computes it: `ProjectDateSerializer` (apps/tickets/serializers.py:274-278) only declares its inputs, and the `backlog` action of the working-hours view is a stub. Only the table's shape, its `__str__` and its unique weekday are modelled.
- Views, filters, pagination and file handling (apps/tickets/views.py, apps/tickets/filters.py, apps/files/views.py, apps/authentication/views.py) are database and filesystem plumbing.
- `generate_tokens`, `update_or_create` and `set_unusable_password` in `create_or_update_user` are JWT and database calls. Only the name split is modelled.
- `generate_ticket_id` is a database query, `generate_report_filename` reads the clock, and `ResponseFormatter` only builds dictionary literals.
- Admin, URL routing, settings, middleware and test fixtures are configuration.
- Clock readings are parameters: `now` in `EstimatedClosingDate` and `PreparedUpdate`.
- BusinessTime.BusinessHoursDiff: returns whole seconds instead of floating-point hours (`seconds / 3600`); the hours follow exactly. Microseconds are assumed zero: `replace(hour=…, minute=0, second=0)` keeps them in the source. Time zones are not modelled.
- BusinessTime.EstimatedClosingDate: exact seconds instead of a float `timedelta(hours=…)`. Rounding to the microsecond is not modelled. The seconds of the estimated time are ignored, as in the source.
- Character classes (`\D`, `\w`, `\s`) are taken over ASCII; `str.lower()` over ASCII and Latin-1. Other Unicode behaviour is not modelled.
- Validators.ValidateTicketData: requires a present, truthy title or description to be a string. `len()` of other value kinds is not modelled.
- Validators.ValidateUserData: requires a present, truthy e-mail or phone to be a string. `re.match` on other kinds raises in the source and is not modelled.
- Validators.ValidateFileExtension and Validators.ValidateFileSize take the file's name and size, not the uploaded file object. Messages are the untranslated source texts (`gettext_lazy` is not modelled).
- Validators.ValidatePositiveNumber takes a real number; other Python numeric types are not distinguished.
- TicketSerializers.PreparedUpdate: a truthy `status_id` that is not a status row (which would raise in the source) is treated as not closing. The generic `super().update` that follows is not modelled.
- Permissions.OwnerOrReadOnly: the outcome of `obj.user == request.user` is an input, because both sides are user rows the model does not hold. The comparisons of `obj.assigned_to` and `obj.network_user` with the username are modelled with Python `==` instead (see Findings).
- The object-level permission predicates require a user to be present, because the source reads `request.user.is_staff` unguarded.
- Model field schemas (lengths, column names, choices, timestamps) are reduced to the fields the modelled rules read.

## Findings

| source | as written | input that shows it | evidently intended | confidence | as-written member | corrected member |
|---|---|---|---|---|---|---|
| core/utils/validators.py:31-43 | `re.match(r'^[a-zA-Z0-9._-]+$', value)` lets one final newline through, and the newline counts towards the 3-character minimum | `"ab\n"` is accepted | only letters, digits, `.`, `_` and `-`, at least 3 of them (a full match) | not executed; follows from how Python's `$` matches before a final newline | Validators.NetworkUserTrailingNewline | Validators.StrictNetworkUserHasOnlyAllowedChars |
| apps/tickets/permissions.py:30 | `obj.assigned_to == request.user.username` compares an `EUser` row with a string. Django's `Model.__eq__` and `str.__eq__` both return `NotImplemented`, so Python falls back to identity and the result is always `False` | a non-staff user whose username is the assignee's network user, on a ticket someone else reported, is refused | compare the assignee's network user (its primary key) with the username, as the class's docstring and comment promise | not executed; follows from the definitions of `Model.__eq__` and of Python's `==` | Permissions.AssigneeRefused | Permissions.TicketOwnerOrAssignedIntended |
| apps/tickets/permissions.py:76-78 | `obj.network_user == request.user.username` compares the object's `network_user` with a string. On a `Note` or a `ReportedTime` that attribute is a foreign key, so it holds an `EUser` row (apps/tickets/models.py:523-531, 569-577), and the comparison is always `False` | a non-staff user writing to a note they wrote themselves is refused | compare the network user the attribute names (the row's key) with the username, as the comment on the write branch promises | not executed; follows from the definitions of `Model.__eq__` and of Python's `==` | Permissions.AuthorRefused | Permissions.OwnerOrReadOnlyIntended |
