/** The validators of core/utils/validators.py. A single-value validator
    returns its argument unchanged or fails with Django's `ValidationError`
    (a message and a code); the two record validators collect messages in a
    list, one check per field, in a fixed order. */
module Validators {
  import opened Text
  import opened Clock
  import opened Models
  import Helpers

  datatype ValidationError = ValidationError(message: string, code: string)

  /** What a validator does with a value: hands it back or raises. */
  datatype Outcome<T> = Accepted(value: T) | Rejected(error: ValidationError)

  // ---------------------------------------------------------------------
  // validate_phone_number

  const PhoneError := ValidationError("El número de teléfono debe tener entre 10 y 15 dígitos.", "invalid_phone")

  /** `validate_phone_number(value)`. */
  function ValidatePhoneNumber(value: string): (r: Outcome<string>)
    ensures r.Accepted? <==> 10 <= |Digits(value)| <= 15
    ensures r.Accepted? ==> r.value == value
    ensures r.Rejected? ==> r.error == PhoneError
  {
    var phone := Digits(value);
    if |phone| < 10 || |phone| > 15 then Rejected(PhoneError) else Accepted(value)
  }

  /** A number is accepted exactly when its formatted form is: formatting
      keeps the digits the validator counts. */
  lemma {:induction false} PhoneValidationIgnoresFormatting(value: string)
    ensures ValidatePhoneNumber(Helpers.FormatPhoneNumber(value)).Accepted? == ValidatePhoneNumber(value).Accepted?
  {
    Helpers.FormatPhoneNumberKeepsDigits(value);
  }

  /** Ten digits pass when punctuated as `(ddd) ddd-dddd`. */
  lemma {:induction false} PunctuatedPhoneAccepted(a: string, b: string, c: string)
    requires |a| == 3 && |b| == 3 && |c| == 4 && AllDigits(a + b + c)
    ensures ValidatePhoneNumber("(" + a + ") " + b + "-" + c).Accepted?
  {
    var d := a + b + c;
    DigitsOfDigitString(d);
    assert d[..3] == a && d[3..6] == b && d[6..] == c;
    assert Helpers.FormatPhoneNumber(d) == "(" + a + ") " + b + "-" + c;
    PhoneValidationIgnoresFormatting(d);
  }

  /** Fewer than ten digits are too few, whatever their values. */
  lemma {:induction false} ShortPhoneRejected(d: string)
    requires AllDigits(d) && |d| < 10
    ensures ValidatePhoneNumber(d).Rejected?
  {
    DigitsOfDigitString(d);
  }

  // ---------------------------------------------------------------------
  // validate_network_user

  const NetworkUserCharsError := ValidationError(
    "El usuario de red solo puede contener letras, números, puntos, guiones y guiones bajos.",
    "invalid_network_user")
  const NetworkUserShortError := ValidationError("El usuario de red debe tener al menos 3 caracteres.", "network_user_too_short")

  /** The class `[a-zA-Z0-9._-]`. */
  predicate NetworkUserChar(c: char) { IsAsciiLetter(c) || IsDigit(c) || c == '.' || c == '_' || c == '-' }

  predicate NetworkUserWord(w: string) { |w| > 0 && forall i :: 0 <= i < |w| ==> NetworkUserChar(w[i]) }

  /** `re.match(r'^[a-zA-Z0-9._-]+$', value)`: `$` also matches before one
      final newline. */
  predicate MatchesNetworkUserPattern(value: string)
  {
    NetworkUserWord(value) || (|value| > 0 && value[|value| - 1] == '\n' && NetworkUserWord(value[..|value| - 1]))
  }

  /** `validate_network_user(value)`: the pattern is checked first, then the
      length of the whole value. */
  function ValidateNetworkUser(value: string): (r: Outcome<string>)
    ensures r.Accepted? <==> MatchesNetworkUserPattern(value) && |value| >= 3
    ensures r.Accepted? ==> r.value == value
    ensures !MatchesNetworkUserPattern(value) ==> r == Rejected(NetworkUserCharsError)
    ensures MatchesNetworkUserPattern(value) && |value| < 3 ==> r == Rejected(NetworkUserShortError)
  {
    if !MatchesNetworkUserPattern(value) then Rejected(NetworkUserCharsError)
    else if |value| < 3 then Rejected(NetworkUserShortError)
    else Accepted(value)
  }

  /** The character check wins over the length check: the empty string and
      a short name with a bad character report the characters. */
  lemma NetworkUserCheckOrder()
    ensures ValidateNetworkUser("") == Rejected(NetworkUserCharsError)
    ensures ValidateNetworkUser("a!") == Rejected(NetworkUserCharsError)
    ensures ValidateNetworkUser("ab") == Rejected(NetworkUserShortError)
    ensures ValidateNetworkUser("abc") == Accepted("abc")
  {
    assert !NetworkUserChar("a!"[1]);
  }

  /** As written, a two-character name followed by a newline is accepted:
      the pattern lets the newline through and it counts towards the length. */
  lemma NetworkUserTrailingNewline()
    ensures ValidateNetworkUser("ab\n") == Accepted("ab\n")
  {
    assert "ab\n"[..2] == "ab";
  }

  /** The check as the pattern's comment describes it: the whole value is
      letters, digits, dots, hyphens and underscores (`re.fullmatch`). */
  function ValidateNetworkUserStrict(value: string): (r: Outcome<string>)
    ensures r.Accepted? <==> NetworkUserWord(value) && |value| >= 3
    ensures r.Accepted? ==> r.value == value
  {
    if !NetworkUserWord(value) then Rejected(NetworkUserCharsError)
    else if |value| < 3 then Rejected(NetworkUserShortError)
    else Accepted(value)
  }

  /** The strict check accepts only names made of the allowed characters,
      and otherwise agrees with the check as written. */
  lemma {:induction false} StrictNetworkUserHasOnlyAllowedChars(value: string)
    ensures ValidateNetworkUserStrict(value).Accepted? ==> forall i :: 0 <= i < |value| ==> value[i] != '\n'
    ensures ValidateNetworkUserStrict(value).Accepted? ==> ValidateNetworkUser(value).Accepted?
    ensures ValidateNetworkUserStrict("ab\n").Rejected?
  {
    assert !NetworkUserChar("ab\n"[2]);
  }

  // ---------------------------------------------------------------------
  // validate_file_extension

  const AllowedExtensions: seq<string> :=
    [".pdf", ".doc", ".docx", ".xls", ".xlsx", ".jpg", ".jpeg", ".png", ".gif", ".txt", ".csv", ".zip", ".rar"]

  const ExtensionError := ValidationError(
    "Extensión de archivo no permitida. Permitidas: " + Join(AllowedExtensions, ", "), "invalid_extension")

  function LastIndex(s: string, c: char): (r: int)
    ensures -1 <= r < |s|
    ensures r >= 0 ==> s[r] == c
    ensures forall k :: r < k < |s| ==> s[k] != c
  {
    if s == [] then -1 else if s[|s| - 1] == c then |s| - 1 else LastIndex(s[..|s| - 1], c)
  }

  lemma {:induction false} LastIndexIs(s: string, c: char, r: int)
    requires 0 <= r < |s| && s[r] == c && forall k :: r < k < |s| ==> s[k] != c
    ensures LastIndex(s, c) == r
  {
  }

  /** `os.path.splitext(p)` on POSIX: the extension runs from the last dot,
      provided that dot is in the last path component and is preceded there
      by something other than dots. */
  function SplitExt(p: string): (r: (string, string))
    ensures r.0 + r.1 == p
    ensures r.1 == [] || (r.1[0] == '.' && forall k :: 0 < k < |r.1| ==> r.1[k] != '.' && r.1[k] != '/')
    ensures r.1 != [] ==> exists k :: 0 <= k < |r.0| && r.0[k] != '.' && forall j :: k <= j < |r.0| ==> r.0[j] != '/'
  {
    var sep, dot := LastIndex(p, '/'), LastIndex(p, '.');
    if dot > sep && exists k :: sep < k < dot && p[k] != '.' then (p[..dot], p[dot..]) else (p, [])
  }

  /** `p` splits at the dot `dot` when no dot or slash follows it and a
      character other than a dot, at `k`, precedes it in the last component. */
  lemma {:induction false} SplitExtAt(p: string, dot: nat, k: nat)
    requires dot < |p| && p[dot] == '.' && forall j :: dot < j < |p| ==> p[j] != '.' && p[j] != '/'
    requires k < dot && p[k] != '.' && forall j :: k <= j < dot ==> p[j] != '/'
    ensures SplitExt(p) == (p[..dot], p[dot..])
  {
    LastIndexIs(p, '.', dot);
  }

  /** `validate_file_extension(value)` on the file's name. */
  function ValidateFileExtension(name: string): (r: Outcome<string>)
    ensures r.Accepted? <==> Lower(SplitExt(name).1) in AllowedExtensions
    ensures r.Accepted? ==> r.value == name
    ensures r.Rejected? ==> r.error == ExtensionError
  {
    var ext := Lower(SplitExt(name).1);
    if ext !in AllowedExtensions then Rejected(ExtensionError) else Accepted(name)
  }

  /** Only the final extension decides: a name made of a stem that does
      not end in a dot or a slash and an extension (a dot, then no dot or
      slash) is accepted exactly when that extension, lower-cased, is
      listed. */
  lemma {:induction false} FinalExtensionDecides(stem: string, ext: string)
    requires stem != [] && stem[|stem| - 1] != '.' && stem[|stem| - 1] != '/'
    requires ext != [] && ext[0] == '.' && forall j :: 0 < j < |ext| ==> ext[j] != '.' && ext[j] != '/'
    ensures ValidateFileExtension(stem + ext).Accepted? <==> Lower(ext) in AllowedExtensions
  {
    var p := stem + ext;
    var dot := |stem|;
    assert p[dot] == '.' && p[dot - 1] == stem[dot - 1];
    forall j | dot < j < |p|
      ensures p[j] != '.' && p[j] != '/'
    {
      assert p[j] == ext[j - dot];
    }
    SplitExtAt(p, dot, dot - 1);
    assert p[dot..] == ext;
    assert SplitExt(p).1 == ext;
  }

  /** The extension is matched in any case: a name is accepted exactly
      when the same name with its extension lower-cased is. */
  lemma {:induction false} ExtensionCaseInsensitive(stem: string, ext: string)
    requires stem != [] && stem[|stem| - 1] != '.' && stem[|stem| - 1] != '/'
    requires ext != [] && ext[0] == '.' && forall j :: 0 < j < |ext| ==> ext[j] != '.' && ext[j] != '/'
    ensures ValidateFileExtension(stem + ext).Accepted? <==> ValidateFileExtension(stem + Lower(ext)).Accepted?
  {
    var low := Lower(ext);
    forall j | 0 < j < |low|
      ensures low[j] != '.' && low[j] != '/'
    {
      assert low[j] == LowerChar(ext[j]);
    }
    FinalExtensionDecides(stem, ext);
    FinalExtensionDecides(stem, low);
    LowerIdempotent(ext);
  }

  /** Only the last path component is searched for the dot: whatever
      directories, dotted or not, precede a file name, the outcome is the
      file name's own. */
  lemma {:induction false} ExtensionIgnoresDirectory(dir: string, base: string, ext: string)
    requires base != [] && base[|base| - 1] != '.' && base[|base| - 1] != '/'
    requires ext != [] && ext[0] == '.' && forall j :: 0 < j < |ext| ==> ext[j] != '.' && ext[j] != '/'
    ensures ValidateFileExtension(dir + base + ext).Accepted? <==> ValidateFileExtension(base + ext).Accepted?
  {
    var stem := dir + base;
    assert stem[|stem| - 1] == base[|base| - 1];
    FinalExtensionDecides(stem, ext);
    FinalExtensionDecides(base, ext);
  }

  /** A name without a dot has no extension. */
  lemma NoExtensionExample()
    ensures ValidateFileExtension("memo").Rejected?
  {
    assert SplitExt("memo") == ("memo", []);
  }

  /** A leading dot starts a hidden file's name, not an extension. */
  lemma HiddenFileExample()
    ensures ValidateFileExtension(".pdf").Rejected?
  {
    assert SplitExt(".pdf") == (".pdf", []);
  }

  /** Only the final extension counts: an allowed `.pdf` before an
      extension that is not listed does not let the name through. */
  lemma {:induction false} DoubleExtensionRejected(stem: string, ext: string)
    requires ext != [] && ext[0] == '.' && forall j :: 0 < j < |ext| ==> ext[j] != '.' && ext[j] != '/'
    requires Lower(ext) !in AllowedExtensions
    ensures ValidateFileExtension(stem + ".pdf" + ext).Rejected?
  {
    var inner := stem + ".pdf";
    assert inner[|inner| - 1] == 'f';
    FinalExtensionDecides(inner, ext);
  }

  // ---------------------------------------------------------------------
  // validate_file_size, validate_priority, validate_positive_number,
  // validate_business_hours

  const MaxFileSize: int := 10 * 1024 * 1024

  const FileSizeError := ValidationError("El archivo es demasiado grande. El tamaño máximo es 10MB.", "file_too_large")

  /** `validate_file_size(value)` on the file's size in bytes. */
  function ValidateFileSize(size: int): (r: Outcome<int>)
    ensures r.Accepted? <==> size <= 10485760
    ensures r.Accepted? ==> r.value == size
    ensures r.Rejected? ==> r.error == FileSizeError
  {
    if size > MaxFileSize then Rejected(FileSizeError) else Accepted(size)
  }

  const ValidPriorities: seq<string> := ["baja", "media", "alta", "crítica"]

  const PriorityError := ValidationError("Prioridad no válida. Debe ser una de: " + Join(ValidPriorities, ", "), "invalid_priority")

  /** `validate_priority(value)`: the label, lower-cased, is one of the four. */
  function ValidatePriority(value: string): (r: Outcome<string>)
    ensures r.Accepted? <==> Lower(value) in {"baja", "media", "alta", "crítica"}
    ensures r.Accepted? ==> r.value == value
    ensures r.Rejected? ==> r.error == PriorityError
  {
    if Lower(value) !in ValidPriorities then Rejected(PriorityError) else Accepted(value)
  }

  lemma PriorityExamples()
    ensures ValidatePriority("Alta").Accepted?
    ensures ValidatePriority("urgente").Rejected?
  {
    assert Lower("Alta") == "alta";
    LowerNoCapitals("urgente");
  }

  /** Lower-casing covers the accented capital: `CRÍTICA` is `crítica`. */
  lemma AccentedPriorityExample()
    ensures ValidatePriority("CRÍTICA").Accepted?
  {
    assert Lower("CRÍTICA") == "crítica";
  }

  const NotPositiveError := ValidationError("El valor debe ser un número positivo.", "not_positive")

  /** `validate_positive_number(value)`. */
  function ValidatePositiveNumber(value: real): (r: Outcome<real>)
    ensures r.Accepted? <==> value > 0.0
    ensures r.Accepted? ==> r.value == value
    ensures r.Rejected? ==> r.error == NotPositiveError
  {
    if value <= 0.0 then Rejected(NotPositiveError) else Accepted(value)
  }

  const OutsideBusinessHoursError := ValidationError(
    "La hora debe estar dentro del horario laboral (9:00 AM - 6:00 PM).", "outside_business_hours")

  /** `validate_business_hours(value)` on a time of day: only its hour counts. */
  function ValidateBusinessHours(t: ClockTime): (r: Outcome<ClockTime>)
    ensures r.Accepted? <==> 9 <= t.hour <= 17
    ensures r.Accepted? ==> r.value == t
    ensures r.Rejected? ==> r.error == OutsideBusinessHoursError
  {
    if t.hour < 9 || t.hour >= 18 then Rejected(OutsideBusinessHoursError) else Accepted(t)
  }

  /** The boundaries: 10 MiB passes and one byte more fails, zero is not
      positive, 17:59:59 is inside business hours and 18:00 is not. */
  lemma ThresholdBoundaries()
    ensures ValidateFileSize(10485760).Accepted? && ValidateFileSize(10485761).Rejected?
    ensures ValidatePositiveNumber(0.0).Rejected? && ValidatePositiveNumber(0.5).Accepted?
    ensures ValidateBusinessHours(ClockTime(9, 0, 0)).Accepted? && ValidateBusinessHours(ClockTime(8, 59, 59)).Rejected?
    ensures ValidateBusinessHours(ClockTime(17, 59, 59)).Accepted? && ValidateBusinessHours(ClockTime(18, 0, 0)).Rejected?
  {
  }

  // ---------------------------------------------------------------------
  // TicketValidator.validate_ticket_data

  const TitleRequired := "El título del ticket es requerido"
  const TitleTooShort := "El título debe tener al menos 5 caracteres"
  const DescriptionRequired := "La descripción del ticket es requerida"
  const DescriptionTooShort := "La descripción debe tener al menos 10 caracteres"
  const ServiceRequired := "El servicio es requerido"
  const PriorityRequired := "La prioridad es requerida"
  const ReporterRequired := "El usuario reportador es requerido"

  /** The field a message of the ticket validator is about: 0 title,
      1 description, 2 service, 3 priority, 4 reporter; -1 for any other
      text. */
  function TicketField(msg: string): (f: int)
    ensures -1 <= f < 5
  {
    if msg == TitleRequired || msg == TitleTooShort then 0
    else if msg == DescriptionRequired || msg == DescriptionTooShort then 1
    else if msg == ServiceRequired then 2
    else if msg == PriorityRequired then 3
    else if msg == ReporterRequired then 4
    else -1
  }

  /** Every message is about a field among lo .. hi - 1, and the fields
      strictly increase along the list. */
  predicate FieldsAscending(errs: seq<string>, lo: int, hi: int)
  {
    && (forall k :: 0 <= k < |errs| ==> lo <= TicketField(errs[k]) < hi)
    && (forall k :: 0 <= k < |errs| - 1 ==> TicketField(errs[k]) < TicketField(errs[k + 1]))
  }

  lemma {:induction false} FieldsAscendingConcat(a: seq<string>, b: seq<string>, lo: int, mid: int, hi: int)
    requires lo <= mid <= hi
    requires FieldsAscending(a, lo, mid) && FieldsAscending(b, mid, hi)
    ensures FieldsAscending(a + b, lo, hi)
  {
    var ab := a + b;
    forall k | 0 <= k < |ab| ensures lo <= TicketField(ab[k]) < hi {
      if k < |a| {
        assert ab[k] == a[k];
      } else {
        assert ab[k] == b[k - |a|];
      }
    }
    forall k | 0 <= k < |ab| - 1 ensures TicketField(ab[k]) < TicketField(ab[k + 1]) {
      if k + 1 < |a| {
        assert ab[k] == a[k] && ab[k + 1] == a[k + 1];
      } else if k >= |a| {
        assert ab[k] == b[k - |a|] && ab[k + 1] == b[k + 1 - |a|];
      } else {
        assert ab[k] == a[k] && ab[k + 1] == b[0];
      }
    }
  }

  /** `len()` is only applied to a title or description that is present
      and truthy, and both are strings whenever they are. */
  predicate TextFieldsAreStrings(data: map<string, Value>)
  {
    && (Truthy(Get(data, "ticket_title")) ==> Get(data, "ticket_title").Str?)
    && (Truthy(Get(data, "ticket_description")) ==> Get(data, "ticket_description").Str?)
  }

  /** The message a required text field gets: absent or falsy, or shorter
      than its minimum. */
  function TextFieldError(v: Value, minLength: nat, required: string, tooShort: string): (r: seq<string>)
    requires Truthy(v) ==> v.Str?
    ensures |r| <= 1
    ensures r == [] <==> Truthy(v) && |v.s| >= minLength
    ensures !Truthy(v) ==> r == [required]
    ensures Truthy(v) && |v.s| < minLength ==> r == [tooShort]
  {
    if !Truthy(v) then [required] else if |v.s| < minLength then [tooShort] else []
  }

  function PresenceError(v: Value, required: string): (r: seq<string>)
    ensures r == [] <==> Truthy(v)
    ensures !Truthy(v) ==> r == [required]
  {
    if !Truthy(v) then [required] else []
  }

  /** The list the validator builds, field by field. */
  function TicketErrors(data: map<string, Value>): seq<string>
    requires TextFieldsAreStrings(data)
  {
    TextFieldError(Get(data, "ticket_title"), 5, TitleRequired, TitleTooShort)
    + TextFieldError(Get(data, "ticket_description"), 10, DescriptionRequired, DescriptionTooShort)
    + PresenceError(Get(data, "ticket_service"), ServiceRequired)
    + PresenceError(Get(data, "ticket_priority"), PriorityRequired)
    + PresenceError(Get(data, "reporter_user"), ReporterRequired)
  }

  /** `TicketValidator.validate_ticket_data(ticket_data)`. */
  method ValidateTicketData(data: map<string, Value>) returns (valid: bool, errors: seq<string>)
    requires TextFieldsAreStrings(data)
    ensures errors == TicketErrors(data)
    ensures valid <==> errors == []
  {
    errors := [];
    if !Truthy(Get(data, "ticket_title")) {
      errors := errors + [TitleRequired];
    } else if |data["ticket_title"].s| < 5 {
      errors := errors + [TitleTooShort];
    }
    ghost var e1 := errors;
    assert e1 == TextFieldError(Get(data, "ticket_title"), 5, TitleRequired, TitleTooShort);
    if !Truthy(Get(data, "ticket_description")) {
      errors := errors + [DescriptionRequired];
    } else if |data["ticket_description"].s| < 10 {
      errors := errors + [DescriptionTooShort];
    }
    ghost var e2 := errors;
    assert e2 == e1 + TextFieldError(Get(data, "ticket_description"), 10, DescriptionRequired, DescriptionTooShort);
    if !Truthy(Get(data, "ticket_service")) {
      errors := errors + [ServiceRequired];
    }
    ghost var e3 := errors;
    assert e3 == e2 + PresenceError(Get(data, "ticket_service"), ServiceRequired);
    if !Truthy(Get(data, "ticket_priority")) {
      errors := errors + [PriorityRequired];
    }
    ghost var e4 := errors;
    assert e4 == e3 + PresenceError(Get(data, "ticket_priority"), PriorityRequired);
    if !Truthy(Get(data, "reporter_user")) {
      errors := errors + [ReporterRequired];
    }
    assert errors == e4 + PresenceError(Get(data, "reporter_user"), ReporterRequired);
    valid := |errors| == 0;
  }

  /** The data is valid exactly when every field passes its check. */
  lemma {:induction false} TicketErrorsEmptyIff(data: map<string, Value>)
    requires TextFieldsAreStrings(data)
    ensures TicketErrors(data) == [] <==>
      && Truthy(Get(data, "ticket_title")) && |Get(data, "ticket_title").s| >= 5
      && Truthy(Get(data, "ticket_description")) && |Get(data, "ticket_description").s| >= 10
      && Truthy(Get(data, "ticket_service"))
      && Truthy(Get(data, "ticket_priority"))
      && Truthy(Get(data, "reporter_user"))
  {
  }

  /** Each error is about one of the five fields, and the fields strictly
      increase along the list: each field adds at most one error, and they
      come in the order title, description, service, priority, reporter. */
  lemma {:induction false} TicketErrorsOrdered(data: map<string, Value>)
    requires TextFieldsAreStrings(data)
    ensures |TicketErrors(data)| <= 5
    ensures FieldsAscending(TicketErrors(data), 0, 5)
  {
    var t := TextFieldError(Get(data, "ticket_title"), 5, TitleRequired, TitleTooShort);
    var d := TextFieldError(Get(data, "ticket_description"), 10, DescriptionRequired, DescriptionTooShort);
    var s := PresenceError(Get(data, "ticket_service"), ServiceRequired);
    var p := PresenceError(Get(data, "ticket_priority"), PriorityRequired);
    var r := PresenceError(Get(data, "reporter_user"), ReporterRequired);
    assert FieldsAscending(t, 0, 1);
    assert FieldsAscending(d, 1, 2);
    assert FieldsAscending(s, 2, 3);
    assert FieldsAscending(p, 3, 4);
    assert FieldsAscending(r, 4, 5);
    FieldsAscendingConcat(t, d, 0, 1, 2);
    FieldsAscendingConcat(t + d, s, 0, 2, 3);
    FieldsAscendingConcat(t + d + s, p, 0, 3, 4);
    FieldsAscendingConcat(t + d + s + p, r, 0, 4, 5);
    assert TicketErrors(data) == t + d + s + p + r;
  }

  /** Each text-field message is in the list exactly when its own field
      fails its own check, whatever the other fields hold. */
  lemma {:induction false} TicketTextErrorsPerField(data: map<string, Value>)
    requires TextFieldsAreStrings(data)
    ensures TitleRequired in TicketErrors(data) <==> !Truthy(Get(data, "ticket_title"))
    ensures TitleTooShort in TicketErrors(data) <==>
      Truthy(Get(data, "ticket_title")) && |Get(data, "ticket_title").s| < 5
    ensures DescriptionRequired in TicketErrors(data) <==> !Truthy(Get(data, "ticket_description"))
    ensures DescriptionTooShort in TicketErrors(data) <==>
      Truthy(Get(data, "ticket_description")) && |Get(data, "ticket_description").s| < 10
  {
    TicketErrorsParts(data);
  }

  /** Each presence message is in the list exactly when its own field is
      absent or falsy. */
  lemma {:induction false} TicketPresenceErrorsPerField(data: map<string, Value>)
    requires TextFieldsAreStrings(data)
    ensures ServiceRequired in TicketErrors(data) <==> !Truthy(Get(data, "ticket_service"))
    ensures PriorityRequired in TicketErrors(data) <==> !Truthy(Get(data, "ticket_priority"))
    ensures ReporterRequired in TicketErrors(data) <==> !Truthy(Get(data, "reporter_user"))
  {
    TicketErrorsParts(data);
  }

  /** The seven messages have seven different lengths, and the list is the
      five per-field parts in order. */
  lemma {:induction false} TicketErrorsParts(data: map<string, Value>)
    requires TextFieldsAreStrings(data)
    ensures |TitleRequired| == 33 && |TitleTooShort| == 42
    ensures |DescriptionRequired| == 38 && |DescriptionTooShort| == 48
    ensures |ServiceRequired| == 24 && |PriorityRequired| == 25 && |ReporterRequired| == 34
    ensures TicketErrors(data) ==
      TextFieldError(Get(data, "ticket_title"), 5, TitleRequired, TitleTooShort)
      + TextFieldError(Get(data, "ticket_description"), 10, DescriptionRequired, DescriptionTooShort)
      + PresenceError(Get(data, "ticket_service"), ServiceRequired)
      + PresenceError(Get(data, "ticket_priority"), PriorityRequired)
      + PresenceError(Get(data, "reporter_user"), ReporterRequired)
  {
  }

  /** A four-character title is too short and a five-character one passes;
      likewise nine and ten characters for the description. */
  lemma {:induction false} TicketLengthBoundaries(data: map<string, Value>)
    requires TextFieldsAreStrings(data)
    ensures Get(data, "ticket_title") == Str("abcd") ==> TitleTooShort in TicketErrors(data)
    ensures Get(data, "ticket_title") == Str("abcde") ==> TitleRequired !in TicketErrors(data) && TitleTooShort !in TicketErrors(data)
    ensures Get(data, "ticket_description") == Str("123456789") ==> DescriptionTooShort in TicketErrors(data)
    ensures Get(data, "ticket_description") == Str("1234567890") ==>
      DescriptionRequired !in TicketErrors(data) && DescriptionTooShort !in TicketErrors(data)
  {
  }

  // ---------------------------------------------------------------------
  // TicketValidator.validate_ticket_closure

  const NotAssigned := "El ticket debe estar asignado antes de cerrarse"
  const NoClosingCode := "Se requiere un código de cierre"
  const NoNotes := "El ticket debe tener al menos una nota antes de cerrarse"

  /** `TicketValidator.validate_ticket_closure(ticket)`; `noteCount` stands
      for `ticket.note_set.count()`. */
  function ValidateTicketClosure(ticket: Ticket, noteCount: nat): (r: (bool, string))
    ensures r.0 <==> ticket.assignedTo.Some? && ticket.closingCodeId.Some? && noteCount > 0
    ensures r.0 <==> r.1 == ""
  {
    if ticket.assignedTo.None? then (false, NotAssigned)
    else if ticket.closingCodeId.None? then (false, NoClosingCode)
    else if noteCount == 0 then (false, NoNotes)
    else (true, "")
  }

  /** Only the first failing check is reported: assignment, then closing
      code, then notes. */
  lemma {:induction false} TicketClosureFirstFailure(ticket: Ticket, noteCount: nat)
    ensures ticket.assignedTo.None? ==> ValidateTicketClosure(ticket, noteCount).1 == NotAssigned
    ensures ticket.assignedTo.Some? && ticket.closingCodeId.None? ==> ValidateTicketClosure(ticket, noteCount).1 == NoClosingCode
    ensures ticket.assignedTo.Some? && ticket.closingCodeId.Some? && noteCount == 0 ==>
      ValidateTicketClosure(ticket, noteCount).1 == NoNotes
  {
  }

  // ---------------------------------------------------------------------
  // UserValidator.validate_user_data

  const NameRequired := "El nombre es requerido"
  const LastNameRequired := "El apellido es requerido"
  const EmailInvalid := "El formato del email no es válido"

  /** `str()` of a `ValidationError` that holds one message: the list of its
      messages, as Python prints a list of strings. */
  function ErrorText(e: ValidationError): string
  {
    "['" + e.message + "']"
  }

  /** `re.match` is only applied to a present and truthy e-mail, and
      `validate_phone_number` to a present and truthy phone; both are
      strings whenever they are. */
  predicate ContactFieldsAreStrings(data: map<string, Value>)
  {
    && (Truthy(Get(data, "email")) ==> Get(data, "email").Str?)
    && (Truthy(Get(data, "phone")) ==> Get(data, "phone").Str?)
  }

  function EmailError(v: Value): (r: seq<string>)
    requires Truthy(v) ==> v.Str?
    ensures r == [] <==> !Truthy(v) || Helpers.ValidateEmail(v.s)
  {
    if Truthy(v) && !Helpers.ValidateEmail(v.s) then [EmailInvalid] else []
  }

  function PhoneFieldError(v: Value): (r: seq<string>)
    requires Truthy(v) ==> v.Str?
    ensures r == [] <==> !Truthy(v) || 10 <= |Digits(v.s)| <= 15
  {
    if Truthy(v) && ValidatePhoneNumber(v.s).Rejected? then [ErrorText(ValidatePhoneNumber(v.s).error)] else []
  }

  /** The list the user validator builds, field by field. */
  function UserErrors(data: map<string, Value>): seq<string>
    requires ContactFieldsAreStrings(data)
  {
    PresenceError(Get(data, "name"), NameRequired)
    + PresenceError(Get(data, "last_name"), LastNameRequired)
    + EmailError(Get(data, "email"))
    + PhoneFieldError(Get(data, "phone"))
  }

  /** `UserValidator.validate_user_data(user_data)`. */
  method ValidateUserData(data: map<string, Value>) returns (valid: bool, errors: seq<string>)
    requires ContactFieldsAreStrings(data)
    ensures errors == UserErrors(data)
    ensures valid <==> errors == []
  {
    errors := [];
    if !Truthy(Get(data, "name")) {
      errors := errors + [NameRequired];
    }
    if !Truthy(Get(data, "last_name")) {
      errors := errors + [LastNameRequired];
    }
    ghost var e2 := errors;
    assert e2 == PresenceError(Get(data, "name"), NameRequired) + PresenceError(Get(data, "last_name"), LastNameRequired);
    if Truthy(Get(data, "email")) {
      if !Helpers.ValidateEmail(data["email"].s) {
        errors := errors + [EmailInvalid];
      }
    }
    ghost var e3 := errors;
    assert e3 == e2 + EmailError(Get(data, "email"));
    if Truthy(Get(data, "phone")) {
      var outcome := ValidatePhoneNumber(data["phone"].s);
      if outcome.Rejected? {
        errors := errors + [ErrorText(outcome.error)];
      }
    }
    assert errors == e3 + PhoneFieldError(Get(data, "phone"));
    valid := |errors| == 0;
  }

  /** The user data is valid exactly when name and last name are present
      and any e-mail or phone that is given is well formed; an absent or
      empty e-mail or phone is never an error. */
  lemma {:induction false} UserErrorsEmptyIff(data: map<string, Value>)
    requires ContactFieldsAreStrings(data)
    ensures UserErrors(data) == [] <==>
      && Truthy(Get(data, "name")) && Truthy(Get(data, "last_name"))
      && (Truthy(Get(data, "email")) ==> Helpers.ValidateEmail(Get(data, "email").s))
      && (Truthy(Get(data, "phone")) ==> 10 <= |Digits(Get(data, "phone").s)| <= 15)
  {
  }

  /** The e-mail message appears exactly when a given e-mail fails the pattern
      of `validate_email`, which is the same pattern. */
  lemma {:induction false} UserEmailErrorIff(data: map<string, Value>)
    requires ContactFieldsAreStrings(data)
    ensures EmailInvalid in UserErrors(data) <==> Truthy(Get(data, "email")) && !Helpers.ValidateEmail(Get(data, "email").s)
  {
    var n := PresenceError(Get(data, "name"), NameRequired);
    var l := PresenceError(Get(data, "last_name"), LastNameRequired);
    var e := EmailError(Get(data, "email"));
    var p := PhoneFieldError(Get(data, "phone"));
    assert UserErrors(data) == n + l + e + p;
    assert EmailInvalid !in n + l;
    assert EmailInvalid !in p by {
      if p != [] {
        assert p[0] == "['" + PhoneError.message + "']";
        assert p[0][0] == '[';
      }
    }
  }

  /** A rejected phone is reported with the text Django gives the error. */
  lemma {:induction false} UserPhoneErrorText(data: map<string, Value>)
    requires ContactFieldsAreStrings(data)
    requires Truthy(Get(data, "phone")) && !(10 <= |Digits(Get(data, "phone").s)| <= 15)
    ensures ErrorText(PhoneError) in UserErrors(data)
  {
    var n := PresenceError(Get(data, "name"), NameRequired);
    var l := PresenceError(Get(data, "last_name"), LastNameRequired);
    var e := EmailError(Get(data, "email"));
    var p := PhoneFieldError(Get(data, "phone"));
    assert UserErrors(data) == (n + l + e) + p;
    assert p == [ErrorText(PhoneError)];
  }
}
