/** `AsesorValidator`: the ordered list of validation errors of a record, the
    derived validity test, and the in-place normalisation of the text fields. */
module AsesorValidation {
  import opened Wrappers
  import opened Strings
  import opened AsesorRecord

  /** One validation failure. Each constructor is one message of the validator;
      `Message` gives its exact text. */
  datatype ValidationError =
    | NullRecord
    | IdInvalid
    | NombreRequired | NombreTooShort | NombreTooLong
    | ApellidoRequired | ApellidoTooShort | ApellidoTooLong
    | EmailRequired | EmailMalformed(email: string)
    | TelefonoRequired | TelefonoNotNineDigits
    | EspecialidadRequired
    | UbicacionRequired

  /** The text the validator adds to its list for each failure. */
  function Message(e: ValidationError): string {
    match e
    case NullRecord => "El asesor no puede ser nulo."
    case IdInvalid => "El ID del asesor es obligatorio y debe ser un número positivo."
    case NombreRequired => "El nombre del asesor es obligatorio."
    case NombreTooShort => "El nombre del asesor debe tener al menos 2 caracteres."
    case NombreTooLong => "El nombre del asesor no puede exceder los 50 caracteres."
    case ApellidoRequired => "El apellido del asesor es obligatorio."
    case ApellidoTooShort => "El apellido del asesor debe tener al menos 2 caracteres."
    case ApellidoTooLong => "El apellido del asesor no puede exceder los 50 caracteres."
    case EmailRequired => "El email es obligatorio"
    case EmailMalformed(email) => "El formato del email es inválido: " + email
    case TelefonoRequired => "El teléfono del asesor es obligatorio."
    case TelefonoNotNineDigits => "El teléfono debe contener exactamente 9 dígitos."
    case EspecialidadRequired => "La especialidad del asesor es obligatoria."
    case UbicacionRequired => "La ubicación del asesor es obligatoria."
  }

  /** The position, in checking order, of the field an error is about
      (0 id, 1 nombre, 2 apellido, 3 email, 4 telefono, 5 especialidad,
      6 ubicacion); the null-record error is about no field. */
  function FieldIndex(e: ValidationError): int {
    match e
    case NullRecord => -1
    case IdInvalid => 0
    case NombreRequired | NombreTooShort | NombreTooLong => 1
    case ApellidoRequired | ApellidoTooShort | ApellidoTooLong => 2
    case EmailRequired | EmailMalformed(_) => 3
    case TelefonoRequired | TelefonoNotNineDigits => 4
    case EspecialidadRequired => 5
    case UbicacionRequired => 6
  }

  /** `matches("^\\d{9}$")`: exactly nine ASCII decimal digits. */
  predicate NineDigits(s: string) {
    |s| == 9 && forall i :: 0 <= i < |s| ==> '0' <= s[i] <= '9'
  }

  /** The id rule: present and positive. */
  function IdRule(id: Option<int>): seq<ValidationError> {
    if id.None? || id.value <= 0 then [IdInvalid] else []
  }

  /** The rule shared by name and surname: present, then at least 2, then at most 50
      characters (counted on the value as stored, surrounding blanks included). */
  function NameRule(s: Option<string>, required: ValidationError, tooShort: ValidationError,
                    tooLong: ValidationError): seq<ValidationError>
  {
    if IsBlank(s) then [required]
    else if |s.value| < 2 then [tooShort]
    else if |s.value| > 50 then [tooLong]
    else []
  }

  /** The email rule: present, then accepted by the email syntax check `emailOk`. */
  function EmailRule(emailOk: string -> bool, s: Option<string>): seq<ValidationError> {
    if IsBlank(s) then [EmailRequired]
    else if !emailOk(s.value) then [EmailMalformed(s.value)]
    else []
  }

  /** The phone rule: present, then exactly nine digits. */
  function TelefonoRule(s: Option<string>): seq<ValidationError> {
    if IsBlank(s) then [TelefonoRequired]
    else if !NineDigits(s.value) then [TelefonoNotNineDigits]
    else []
  }

  /** A rule that only demands a non-blank value. */
  function RequiredRule(s: Option<string>, required: ValidationError): seq<ValidationError> {
    if IsBlank(s) then [required] else []
  }

  /** The checks `validate` runs on a non-null record, each appending at most one
      error, in field order, none of them stopping the others. */
  function Check(emailOk: string -> bool, r: AsesorData): (errors: seq<ValidationError>)
    ensures |errors| <= 7
    ensures forall i :: 0 <= i < |errors| ==> 0 <= FieldIndex(errors[i]) < 7
  {
    IdRule(r.id)
    + NameRule(r.nombre, NombreRequired, NombreTooShort, NombreTooLong)
    + NameRule(r.apellido, ApellidoRequired, ApellidoTooShort, ApellidoTooLong)
    + EmailRule(emailOk, r.email)
    + TelefonoRule(r.telefono)
    + RequiredRule(r.especialidad, EspecialidadRequired)
    + RequiredRule(r.ubicacion, UbicacionRequired)
  }

  /** `validate`: a null record yields the null-record error alone; otherwise the
      field checks run, and the null-record error never appears. */
  function Validate(emailOk: string -> bool, a: Asesor?): (errors: seq<ValidationError>)
    reads a
    ensures NullRecord in errors <==> a == null
    ensures a == null ==> |errors| == 1
  {
    if a == null then [NullRecord] else Check(emailOk, a.Data())
  }

  /** The list of strings `validate` returns: the message of each error, in order. */
  function ValidateMessages(emailOk: string -> bool, a: Asesor?): (messages: seq<string>)
    reads a
    ensures a == null ==> messages == ["El asesor no puede ser nulo."]
    ensures |messages| == |Validate(emailOk, a)|
  {
    var errors := Validate(emailOk, a);
    seq(|errors|, i requires 0 <= i < |errors| => Message(errors[i]))
  }

  /** The record constraints stated directly, field by field: what a record must
      satisfy to have no validation error. */
  predicate Acceptable(emailOk: string -> bool, r: AsesorData) {
    && r.id.Some? && r.id.value > 0
    && r.nombre.Some? && !Blank(r.nombre.value) && 2 <= |r.nombre.value| <= 50
    && r.apellido.Some? && !Blank(r.apellido.value) && 2 <= |r.apellido.value| <= 50
    && r.email.Some? && !Blank(r.email.value) && emailOk(r.email.value)
    && r.telefono.Some? && NineDigits(r.telefono.value)
    && IsNotBlank(r.especialidad)
    && IsNotBlank(r.ubicacion)
  }

  /** The checks find nothing exactly when the record meets every constraint. */
  lemma CheckEmptyIff(emailOk: string -> bool, r: AsesorData)
    ensures Check(emailOk, r) == [] <==> Acceptable(emailOk, r)
  {
    if r.telefono.Some? && NineDigits(r.telefono.value) {
      assert !IsWhitespace(r.telefono.value[0]);
    }
  }

  /** `isValid`: `validate` returns no error, i.e. the record is non-null and
      meets every constraint. */
  predicate IsValid(emailOk: string -> bool, a: Asesor?): (ok: bool)
    reads a
    ensures ok <==> a != null && Acceptable(emailOk, a.Data())
  {
    if a != null then CheckEmptyIff(emailOk, a.Data()); Validate(emailOk, a) == []
    else Validate(emailOk, a) == []
  }

  /** Every error is about a field numbered below `k`, and the field numbers
      strictly increase along the list. */
  predicate OrderedBelow(errors: seq<ValidationError>, k: int) {
    && (forall i :: 0 <= i < |errors| ==> 0 <= FieldIndex(errors[i]) < k)
    && (forall i, j :: 0 <= i < j < |errors| ==> FieldIndex(errors[i]) < FieldIndex(errors[j]))
  }

  /** A rule's outcome: empty, or one error about field `k`. */
  predicate AtMostOneAbout(rule: seq<ValidationError>, k: int) {
    |rule| <= 1 && (rule != [] ==> FieldIndex(rule[0]) == k)
  }

  /** Appending the outcome of the rule for field `k` keeps the list ordered. */
  lemma AppendRule(errors: seq<ValidationError>, rule: seq<ValidationError>, k: int, next: int)
    requires 0 <= k && next == k + 1 && OrderedBelow(errors, k)
    requires AtMostOneAbout(rule, k)
    ensures OrderedBelow(errors + rule, next)
  {
  }

  /** Seven rule outcomes, one per field, concatenated in field order, are ordered. */
  lemma OrderedOfParts(e0: seq<ValidationError>, e1: seq<ValidationError>, e2: seq<ValidationError>,
                       e3: seq<ValidationError>, e4: seq<ValidationError>, e5: seq<ValidationError>,
                       e6: seq<ValidationError>)
    requires AtMostOneAbout(e0, 0) && AtMostOneAbout(e1, 1) && AtMostOneAbout(e2, 2)
    requires AtMostOneAbout(e3, 3) && AtMostOneAbout(e4, 4) && AtMostOneAbout(e5, 5)
    requires AtMostOneAbout(e6, 6)
    ensures OrderedBelow(e0 + e1 + e2 + e3 + e4 + e5 + e6, 7)
  {
    AppendRule([], e0, 0, 1);
    assert [] + e0 == e0;
    AppendRule(e0, e1, 1, 2);
    AppendRule(e0 + e1, e2, 2, 3);
    AppendRule(e0 + e1 + e2, e3, 3, 4);
    AppendRule(e0 + e1 + e2 + e3, e4, 4, 5);
    AppendRule(e0 + e1 + e2 + e3 + e4, e5, 5, 6);
    AppendRule(e0 + e1 + e2 + e3 + e4 + e5, e6, 6, 7);
  }

  /** The errors come in strictly increasing field order, each about one of the seven
      fields: every field contributes at most one error, and in the fixed order. */
  lemma CheckOrdered(emailOk: string -> bool, r: AsesorData)
    ensures OrderedBelow(Check(emailOk, r), 7)
  {
    OrderedOfParts(IdRule(r.id),
                   NameRule(r.nombre, NombreRequired, NombreTooShort, NombreTooLong),
                   NameRule(r.apellido, ApellidoRequired, ApellidoTooShort, ApellidoTooLong),
                   EmailRule(emailOk, r.email),
                   TelefonoRule(r.telefono),
                   RequiredRule(r.especialidad, EspecialidadRequired),
                   RequiredRule(r.ubicacion, UbicacionRequired));
  }

  /** A strictly increasing sequence of integers drawn from `[lo, hi)` has at most
      `hi - lo` elements. */
  lemma {:induction false} StrictlyIncreasingBound(xs: seq<int>, lo: int, hi: int)
    requires forall i :: 0 <= i < |xs| ==> lo <= xs[i] < hi
    requires forall i, j :: 0 <= i < j < |xs| ==> xs[i] < xs[j]
    ensures |xs| <= if hi < lo then 0 else hi - lo
  {
    if xs != [] {
      StrictlyIncreasingBound(xs[1..], xs[0] + 1, hi);
    }
  }

  /** `validate` returns at most seven errors. */
  lemma AtMostSevenErrors(emailOk: string -> bool, a: Asesor?)
    ensures |Validate(emailOk, a)| <= 7
  {
    if a != null {
      var errors := Check(emailOk, a.Data());
      CheckOrdered(emailOk, a.Data());
      StrictlyIncreasingBound(seq(|errors|, i requires 0 <= i < |errors| => FieldIndex(errors[i])), 0, 7);
    }
  }

  /** A blank name yields the "required" error and neither length error; a non-blank
      name of 2 to 50 characters yields no name error at all. */
  lemma NombreErrors(emailOk: string -> bool, r: AsesorData)
    ensures IsBlank(r.nombre) ==>
              NombreRequired in Check(emailOk, r) &&
              NombreTooShort !in Check(emailOk, r) && NombreTooLong !in Check(emailOk, r)
    ensures IsNotBlank(r.nombre) && 2 <= |r.nombre.value| <= 50 ==>
              forall e :: e in Check(emailOk, r) ==> FieldIndex(e) != 1
  {
    NombreInCheck(emailOk, r, NombreRequired);
    NombreInCheck(emailOk, r, NombreTooShort);
    NombreInCheck(emailOk, r, NombreTooLong);
    forall e | e in Check(emailOk, r) && FieldIndex(e) == 1 && IsNotBlank(r.nombre)
      ensures |r.nombre.value| < 2 || |r.nombre.value| > 50
    {
      NombreInCheck(emailOk, r, e);
    }
  }

  /** The same rule for the surname. */
  lemma ApellidoErrors(emailOk: string -> bool, r: AsesorData)
    ensures IsBlank(r.apellido) ==>
              ApellidoRequired in Check(emailOk, r) &&
              ApellidoTooShort !in Check(emailOk, r) && ApellidoTooLong !in Check(emailOk, r)
    ensures IsNotBlank(r.apellido) && 2 <= |r.apellido.value| <= 50 ==>
              forall e :: e in Check(emailOk, r) ==> FieldIndex(e) != 2
  {
    ApellidoInCheck(emailOk, r, ApellidoRequired);
    ApellidoInCheck(emailOk, r, ApellidoTooShort);
    ApellidoInCheck(emailOk, r, ApellidoTooLong);
    forall e | e in Check(emailOk, r) && FieldIndex(e) == 2 && IsNotBlank(r.apellido)
      ensures |r.apellido.value| < 2 || |r.apellido.value| > 50
    {
      ApellidoInCheck(emailOk, r, e);
    }
  }

  /** A non-blank phone that is not nine digits yields the nine-digit error and no
      other error about the phone. */
  lemma TelefonoFormatError(emailOk: string -> bool, r: AsesorData)
    requires IsNotBlank(r.telefono) && !NineDigits(r.telefono.value)
    ensures TelefonoNotNineDigits in Check(emailOk, r)
    ensures forall e :: e in Check(emailOk, r) && FieldIndex(e) == 4 ==> e == TelefonoNotNineDigits
  {
  }

  /** The email errors: the "required" error exactly when the email is blank, and
      the format error, carrying the email, exactly when a non-blank email is
      rejected by the syntax check. */
  lemma EmailErrors(emailOk: string -> bool, r: AsesorData, x: string)
    ensures EmailRequired in Check(emailOk, r) <==> IsBlank(r.email)
    ensures EmailMalformed(x) in Check(emailOk, r) <==>
              IsNotBlank(r.email) && x == r.email.value && !emailOk(x)
  {
  }

  /** The phone errors: the "required" error exactly when the phone is blank, the
      nine-digit error exactly when a non-blank phone is not nine digits. */
  lemma TelefonoErrors(emailOk: string -> bool, r: AsesorData)
    ensures TelefonoRequired in Check(emailOk, r) <==> IsBlank(r.telefono)
    ensures TelefonoNotNineDigits in Check(emailOk, r) <==>
              IsNotBlank(r.telefono) && !NineDigits(r.telefono.value)
  {
  }

  /** The specialty and location errors appear exactly when the field is blank. */
  lemma RequiredErrors(emailOk: string -> bool, r: AsesorData)
    ensures EspecialidadRequired in Check(emailOk, r) <==> IsBlank(r.especialidad)
    ensures UbicacionRequired in Check(emailOk, r) <==> IsBlank(r.ubicacion)
  {
  }

  /** A record that is fine except for a malformed phone has exactly one error. */
  lemma OnlyTelefonoWrong(emailOk: string -> bool, r: AsesorData, telefono: string)
    requires Acceptable(emailOk, r)
    requires !Blank(telefono) && !NineDigits(telefono)
    ensures Check(emailOk, r.(telefono := Some(telefono))) == [TelefonoNotNineDigits]
  {
  }

  /** The id error appears exactly when the id is null or not positive, and the id
      has no influence on any other error: no rule stops the others. */
  lemma IdRuleIndependent(emailOk: string -> bool, r: AsesorData, id: Option<int>)
    ensures IdInvalid in Check(emailOk, r) <==> r.id.None? || r.id.value <= 0
    ensures forall e :: e != IdInvalid ==>
              (e in Check(emailOk, r) <==> e in Check(emailOk, r.(id := id)))
  {
  }

  /** Every blank check of the record's own `isValid` is among the validator's rules,
      so a record `validate` accepts is complete. */
  lemma ValidImpliesComplete(emailOk: string -> bool, a: Asesor)
    requires IsValid(emailOk, a)
    ensures a.IsValid()
  {
    assert !IsWhitespace(a.telefono.value[0]);
  }

  /** The converse fails: the record's `isValid` ignores the id (and every format),
      so a complete record with a null id is still rejected by the validator. */
  lemma CompleteButInvalid(emailOk: string -> bool, a: Asesor)
    requires a.Data() == AsesorData(None, Some("Ana"), Some("Gomez"), Some("a@b.com"),
                                    Some("600123456"), Some("Ventas"), Some("Madrid"))
    ensures a.IsValid() && !IsValid(emailOk, a)
  {
    assert !IsWhitespace("Ana"[0]) && !IsWhitespace("Gomez"[0]) && !IsWhitespace("a@b.com"[0]);
    assert !IsWhitespace("600123456"[0]) && !IsWhitespace("Ventas"[0]) && !IsWhitespace("Madrid"[0]);
  }

  /** The normalisation of name, surname and specialty: a non-blank value is
      lower-cased, trimmed and capitalised; a blank or null one is left alone. */
  function NormalizeName(s: Option<string>): (n: Option<string>)
    ensures n.Some? <==> s.Some?
    ensures IsBlank(s) ==> n == s
    ensures IsNotBlank(s) ==> |n.value| <= |s.value|
  {
    if IsBlank(s) then s else Some(Capitalize(Trim(Lower(s.value))))
  }

  /** The normalisation of the email: a non-blank value is lower-cased and trimmed. */
  function NormalizeEmail(s: Option<string>): (n: Option<string>)
    ensures n.Some? <==> s.Some?
    ensures IsBlank(s) ==> n == s
    ensures IsNotBlank(s) ==> |n.value| <= |s.value|
  {
    if IsBlank(s) then s else Some(Trim(Lower(s.value)))
  }

  /** The record after `normalizeAsesor`. */
  function Normalized(r: AsesorData): (n: AsesorData)
    ensures n.id == r.id && n.telefono == r.telefono && n.ubicacion == r.ubicacion
  {
    r.(nombre := NormalizeName(r.nombre),
       apellido := NormalizeName(r.apellido),
       email := NormalizeEmail(r.email),
       especialidad := NormalizeName(r.especialidad))
  }

  /** `normalizeAsesor`: rewrites the four text fields in place through the setters,
      each only when it is not blank; a null record is left as it is. */
  method NormalizeAsesor(a: Asesor?)
    modifies a
    ensures a != null ==> a.Data() == Normalized(old(a.Data()))
  {
    if a == null {
      return;
    }
    if IsNotBlank(a.nombre) {
      a.SetNombre(Some(Capitalize(Trim(Lower(a.nombre.value)))));
    }
    if IsNotBlank(a.apellido) {
      a.SetApellido(Some(Capitalize(Trim(Lower(a.apellido.value)))));
    }
    if IsNotBlank(a.email) {
      a.SetEmail(Some(Trim(Lower(a.email.value))));
    }
    if IsNotBlank(a.especialidad) {
      a.SetEspecialidad(Some(Capitalize(Trim(Lower(a.especialidad.value)))));
    }
  }

  /** Normalisation never touches id, phone or location, nor any blank field. */
  lemma NormalizedKeeps(r: AsesorData)
    ensures Normalized(r).id == r.id
    ensures Normalized(r).telefono == r.telefono && Normalized(r).ubicacion == r.ubicacion
    ensures IsBlank(r.nombre) ==> Normalized(r).nombre == r.nombre
    ensures IsBlank(r.apellido) ==> Normalized(r).apellido == r.apellido
    ensures IsBlank(r.email) ==> Normalized(r).email == r.email
    ensures IsBlank(r.especialidad) ==> Normalized(r).especialidad == r.especialidad
  {
  }

  /** A normalised non-blank name is the capitalised lower-case trim of the input: it
      is non-blank, trimmed, as long as the trimmed input, and has no upper-case
      letter after the first character. */
  lemma NormalizeNameForm(s: Option<string>)
    requires IsNotBlank(s)
    ensures NormalizeName(s) == Some(Capitalize(Lower(Trim(s.value))))
    ensures var v := NormalizeName(s).value;
            !Blank(v) && Trimmed(v) && |v| == |Trim(s.value)| && NoUpper(v[1..])
  {
    var x := s.value;
    var t := Lower(Trim(x));
    assert NormalizeName(s) == Some(Capitalize(t)) by {
      TrimLowerCommute(x);
    }
    var v := Capitalize(t);
    assert Trimmed(t) by {
      TrimLowerCommute(x);
      assert Trimmed(Trim(Lower(x)));
    }
    assert t != [] by {
      TrimEmptyIffBlank(x);
    }
    assert !Blank(v) && Trimmed(v) by {
      CapitalizeTrimmed(t);
    }
    assert NoUpper(v[1..]) by {
      LowerNoUpper(Trim(x));
      assert v[1..] == t[1..];
    }
  }

  /** A normalised non-blank email is the lower-case trim of the input: non-blank,
      trimmed and without upper-case letters. */
  lemma NormalizeEmailForm(s: Option<string>)
    requires IsNotBlank(s)
    ensures NormalizeEmail(s) == Some(Lower(Trim(s.value)))
    ensures var v := NormalizeEmail(s).value; !Blank(v) && Trimmed(v) && NoUpper(v)
  {
    var x := s.value;
    TrimLowerCommute(x);
    LowerNoUpper(Trim(x));
    LowerBlank(x);
    TrimEmptyIffBlank(Lower(x));
  }

  lemma NormalizeNameIdempotent(s: Option<string>)
    ensures NormalizeName(NormalizeName(s)) == NormalizeName(s)
  {
    if IsNotBlank(s) {
      NormalizeNameForm(s);
      var t := Lower(Trim(s.value));
      var y := Capitalize(t);
      LowerNoUpper(Trim(s.value));
      LowerCapitalize(t);
      LowerOfNoUpper(t);
      assert Trimmed(t) by {
        TrimLowerCommute(s.value);
      }
      TrimOfTrimmed(t);
    }
  }

  lemma NormalizeEmailIdempotent(s: Option<string>)
    ensures NormalizeEmail(NormalizeEmail(s)) == NormalizeEmail(s)
  {
    if IsNotBlank(s) {
      NormalizeEmailForm(s);
      var y := NormalizeEmail(s).value;
      LowerOfNoUpper(y);
      TrimOfTrimmed(y);
    }
  }

  /** Normalising twice is normalising once. */
  lemma NormalizeIdempotent(r: AsesorData)
    ensures Normalized(Normalized(r)) == Normalized(r)
  {
    NormalizeNameIdempotent(r.nombre);
    NormalizeNameIdempotent(r.apellido);
    NormalizeEmailIdempotent(r.email);
    NormalizeNameIdempotent(r.especialidad);
  }

  /** Normalisation keeps every field blank or non-blank as it was, so the
      "required" errors of a record do not change by normalising it. */
  lemma NormalizeKeepsBlankness(r: AsesorData)
    ensures IsBlank(Normalized(r).nombre) <==> IsBlank(r.nombre)
    ensures IsBlank(Normalized(r).apellido) <==> IsBlank(r.apellido)
    ensures IsBlank(Normalized(r).email) <==> IsBlank(r.email)
    ensures IsBlank(Normalized(r).especialidad) <==> IsBlank(r.especialidad)
  {
    if IsNotBlank(r.nombre) { NormalizeNameForm(r.nombre); }
    if IsNotBlank(r.apellido) { NormalizeNameForm(r.apellido); }
    if IsNotBlank(r.email) { NormalizeEmailForm(r.email); }
    if IsNotBlank(r.especialidad) { NormalizeNameForm(r.especialidad); }
  }

  /** Validating a normalised record measures the trimmed name: surrounding blanks
      of the input no longer count towards the length limits. */
  lemma NormalizedNombreLength(emailOk: string -> bool, r: AsesorData)
    requires IsNotBlank(r.nombre)
    ensures NombreTooShort in Check(emailOk, Normalized(r)) <==> |Trim(r.nombre.value)| < 2
    ensures NombreTooLong in Check(emailOk, Normalized(r)) <==> |Trim(r.nombre.value)| > 50
  {
    var n := Normalized(r);
    NombreLengthErrors(emailOk, n, |Trim(r.nombre.value)|) by {
      NormalizeNameForm(r.nombre);
    }
  }

  /** The length errors of a non-blank name of `len` characters. */
  lemma NombreLengthErrors(emailOk: string -> bool, r: AsesorData, len: nat)
    requires IsNotBlank(r.nombre) && |r.nombre.value| == len
    ensures NombreTooShort in Check(emailOk, r) <==> len < 2
    ensures NombreTooLong in Check(emailOk, r) <==> len > 50
  {
    NombreInCheck(emailOk, r, NombreTooShort);
    NombreInCheck(emailOk, r, NombreTooLong);
  }

  /** An error about the surname is in the list exactly when the surname rule gives
      it. */
  lemma ApellidoInCheck(emailOk: string -> bool, r: AsesorData, e: ValidationError)
    requires FieldIndex(e) == 2
    ensures e in Check(emailOk, r) <==>
            e in NameRule(r.apellido, ApellidoRequired, ApellidoTooShort, ApellidoTooLong)
  {
  }

  /** An error about the name is in the list exactly when the name rule gives it. */
  lemma NombreInCheck(emailOk: string -> bool, r: AsesorData, e: ValidationError)
    requires FieldIndex(e) == 1
    ensures e in Check(emailOk, r) <==> e in NameRule(r.nombre, NombreRequired, NombreTooShort, NombreTooLong)
  {
  }
}
