/**
 * Declarative validation: the `@IdadeValida` constraint and its validator, and the
 * field constraints (@NotBlank, @Size, @NotNull, @Past, @Email) of the two
 * entities, as the list of field errors a request body produces.
 */
module Validation {
  import opened Wrappers
  import opened Text
  import opened Dates
  import opened Model
  import opened Exceptions

  /** The attributes of an `@IdadeValida` annotation. */
  datatype IdadeValida = IdadeValida(message: string, min: int, max: int)

  /** `@IdadeValida` with every attribute left at its default. */
  const DEFAULT_IDADE_VALIDA: IdadeValida := IdadeValida("Idade deve estar entre 18 e 75 anos", 18, 75)

  /** The violation message the validator records when the age is out of range. */
  function AgeRangeMessage(min: int, max: int, idade: int): string {
    "Idade deve estar entre " + IntToDecimal(min) + " e " + IntToDecimal(max)
      + " anos (idade atual: " + IntToDecimal(idade) + ")"
  }

  /** What `isValid` accepts: no date at all, or a date whose age lies in [min, max]. */
  predicate AgeWithin(dataNascimento: Option<LocalDate>, today: LocalDate, min: int, max: int) {
    match dataNascimento
    case None => true
    case Some(b) => min <= PeriodYears(b, today) <= max
  }

  class IdadeValidaValidator {
    var min: int
    var max: int

    /** A validator before `initialize`: Java's `int` fields start at 0. */
    constructor ()
      ensures min == 0 && max == 0
    {
      min, max := 0, 0;
    }

    method Initialize(constraintAnnotation: IdadeValida)
      modifies this
      ensures min == constraintAnnotation.min && max == constraintAnnotation.max
    {
      min := constraintAnnotation.min;
      max := constraintAnnotation.max;
    }

    /**
     * `isValid`: a null date is left to @NotNull; otherwise the age must lie in
     * [min, max], and a failure records a message naming min, max and the age.
     */
    method IsValid(dataNascimento: Option<LocalDate>, today: LocalDate)
      returns (valid: bool, violation: Option<string>)
      ensures dataNascimento.None? ==> valid && violation.None?
      ensures dataNascimento.Some? ==>
        var idade := PeriodYears(dataNascimento.value, today);
        && (valid <==> min <= idade <= max)
        && (valid ==> violation.None?)
        && (!valid ==> violation == Some(AgeRangeMessage(min, max, idade)))
      ensures valid <==> AgeWithin(dataNascimento, today, min, max)
    {
      if dataNascimento.None? {
        return true, None;
      }
      var idade := PeriodYears(dataNascimento.value, today);
      if idade < min || idade > max {
        return false, Some(AgeRangeMessage(min, max, idade));
      }
      return true, None;
    }
  }

  /**
   * With the default bounds and a birth date present, the declarative rule and
   * `Servidor.isIdadeValida` agree.
   */
  lemma ValidatorAgreesWithServidor(b: LocalDate, today: LocalDate)
    ensures AgeWithin(Some(b), today, DEFAULT_IDADE_VALIDA.min, DEFAULT_IDADE_VALIDA.max)
        <==> IsIdadeValida(Some(b), today)
  {
  }

  /** They differ on a missing date: the validator accepts it, the business rule does not. */
  lemma ValidatorDisagreesOnNull(today: LocalDate, min: int, max: int)
    ensures AgeWithin(None, today, min, max)
    ensures !IsIdadeValida(None, today)
  {
  }

  // ---------------------------------------------------------------------------
  // Field constraints
  // ---------------------------------------------------------------------------

  /** @NotBlank: present, and not made only of characters that `trim` removes. */
  predicate NotBlank(s: Option<string>) {
    s.Some? && !IsBlank(s.value)
  }

  /** @Size(min, max): null passes; otherwise the UTF-16 length lies in [min, max]. */
  predicate SizeWithin(s: Option<string>, min: nat, max: nat) {
    s.None? || min <= Utf16Length(s.value) <= max
  }

  /** Without supplementary characters, @Size bounds the number of characters. */
  lemma SizeWithinOfBmp(s: string, min: nat, max: nat)
    requires forall i :: 0 <= i < |s| ==> s[i] as int < 0x1_0000
    ensures SizeWithin(Some(s), min, max) <==> min <= |s| <= max
  {
    Utf16LengthOfBmp(s);
  }

  /**
   * One field error per failed constraint. The lists below take the constraints
   * in declaration order; Bean Validation does not fix the order of violations,
   * and nothing here depends on it (the handler's map is keyed by field).
   */
  function Check(ok: bool, field: string, message: string): seq<FieldError> {
    if ok then [] else [FieldError(field, message)]
  }

  /** The violations @Valid reports for a unit's `nome` and `sigla`. */
  function SecretariaFieldErrors(nome: Option<string>, sigla: Option<string>): (errors: seq<FieldError>)
    ensures |errors| <= 4
    ensures forall e :: e in errors ==> e.field == "nome" || e.field == "sigla"
  {
    Check(NotBlank(nome), "nome", "Nome é obrigatório")
    + Check(SizeWithin(nome, 2, 100), "nome", "Nome deve ter entre 2 e 100 caracteres")
    + Check(NotBlank(sigla), "sigla", "Sigla é obrigatória")
    + Check(SizeWithin(sigla, 2, 10), "sigla", "Sigla deve ter entre 2 e 10 caracteres")
  }

  /** A structurally valid unit: a non-blank name of 2-100 and a non-blank code of 2-10 characters. */
  predicate SecretariaStructurallyValid(nome: Option<string>, sigla: Option<string>) {
    && nome.Some? && !IsBlank(nome.value) && 2 <= Utf16Length(nome.value) <= 100
    && sigla.Some? && !IsBlank(sigla.value) && 2 <= Utf16Length(sigla.value) <= 10
  }

  /** A unit passes @Valid exactly when it is structurally valid. */
  lemma SecretariaFieldErrorsSound(nome: Option<string>, sigla: Option<string>)
    ensures SecretariaFieldErrors(nome, sigla) == [] <==> SecretariaStructurallyValid(nome, sigla)
  {
  }

  /**
   * The violations @Valid reports for an employee. `isEmail` stands for the
   * @Email pattern check, which null and empty strings pass.
   */
  function ServidorFieldErrors(nome: Option<string>, email: Option<string>,
                               dataNascimento: Option<LocalDate>, hasSecretaria: bool,
                               today: LocalDate, isEmail: string -> bool): seq<FieldError>
  {
    var idade := DEFAULT_IDADE_VALIDA;
    ServidorErrorList(
      NotBlank(nome), SizeWithin(nome, 2, 100), NotBlank(email),
      email.None? || email.value == "" || isEmail(email.value), dataNascimento.Some?,
      dataNascimento.None? || IsBefore(dataNascimento.value, today),
      AgeWithin(dataNascimento, today, idade.min, idade.max), hasSecretaria,
      AgeRangeMessage(idade.min, idade.max,
                      if dataNascimento.Some? then PeriodYears(dataNascimento.value, today) else 0))
  }

  /**
   * The employee's constraints in declaration order, given whether each holds:
   * `nome` @NotBlank and @Size, `email` @NotBlank and @Email, `dataNascimento`
   * @NotNull, @Past and @IdadeValida (whose message names the age), `secretaria` @NotNull.
   */
  function ServidorErrorList(nomeNotBlank: bool, nomeSize: bool, emailNotBlank: bool, emailFormat: bool,
                             dataNotNull: bool, dataPast: bool, idadeValida: bool, secretariaNotNull: bool,
                             idadeMessage: string): seq<FieldError>
  {
    Check(nomeNotBlank, "nome", "Nome é obrigatório")
    + Check(nomeSize, "nome", "Nome deve ter entre 2 e 100 caracteres")
    + Check(emailNotBlank, "email", "E-mail é obrigatório")
    + Check(emailFormat, "email", "E-mail deve ter um formato válido")
    + Check(dataNotNull, "dataNascimento", "Data de nascimento é obrigatória")
    + Check(dataPast, "dataNascimento", "Data de nascimento deve ser uma data passada")
    + Check(idadeValida, "dataNascimento", idadeMessage)
    + Check(secretariaNotNull, "secretaria", "Secretaria é obrigatória")
  }

  /** Every error in the list names one of `fields`. */
  ghost predicate FieldsAmong(errors: seq<FieldError>, fields: set<string>) {
    forall e :: e in errors ==> e.field in fields
  }

  lemma CheckAmong(ok: bool, field: string, message: string, fields: set<string>)
    requires field in fields
    ensures |Check(ok, field, message)| <= 1 && FieldsAmong(Check(ok, field, message), fields)
  {
  }

  lemma AppendAmong(a: seq<FieldError>, b: seq<FieldError>, fields: set<string>)
    requires FieldsAmong(a, fields) && FieldsAmong(b, fields)
    ensures FieldsAmong(a + b, fields)
  {
  }

  /**
   * Whatever the outcome of each check, the employee's list holds at most one
   * error per constraint, and every error names one of the four validated fields.
   */
  lemma ServidorErrorListAmong(ok1: bool, ok2: bool, ok3: bool, ok4: bool, ok5: bool, ok6: bool, ok7: bool, ok8: bool,
                               idadeMessage: string)
    ensures var errors := ServidorErrorList(ok1, ok2, ok3, ok4, ok5, ok6, ok7, ok8, idadeMessage);
      |errors| <= 8 && FieldsAmong(errors, {"nome", "email", "dataNascimento", "secretaria"})
  {
    var fields := {"nome", "email", "dataNascimento", "secretaria"};
    var c1 := Check(ok1, "nome", "Nome é obrigatório");
    var c2 := Check(ok2, "nome", "Nome deve ter entre 2 e 100 caracteres");
    var c3 := Check(ok3, "email", "E-mail é obrigatório");
    var c4 := Check(ok4, "email", "E-mail deve ter um formato válido");
    var c5 := Check(ok5, "dataNascimento", "Data de nascimento é obrigatória");
    var c6 := Check(ok6, "dataNascimento", "Data de nascimento deve ser uma data passada");
    var c7 := Check(ok7, "dataNascimento", idadeMessage);
    var c8 := Check(ok8, "secretaria", "Secretaria é obrigatória");
    CheckAmong(ok1, "nome", "Nome é obrigatório", fields);
    CheckAmong(ok2, "nome", "Nome deve ter entre 2 e 100 caracteres", fields);
    CheckAmong(ok3, "email", "E-mail é obrigatório", fields);
    CheckAmong(ok4, "email", "E-mail deve ter um formato válido", fields);
    CheckAmong(ok5, "dataNascimento", "Data de nascimento é obrigatória", fields);
    CheckAmong(ok6, "dataNascimento", "Data de nascimento deve ser uma data passada", fields);
    CheckAmong(ok7, "dataNascimento", idadeMessage, fields);
    CheckAmong(ok8, "secretaria", "Secretaria é obrigatória", fields);
    AppendAmong(c1, c2, fields);
    AppendAmong(c1 + c2, c3, fields);
    AppendAmong(c1 + c2 + c3, c4, fields);
    AppendAmong(c1 + c2 + c3 + c4, c5, fields);
    AppendAmong(c1 + c2 + c3 + c4 + c5, c6, fields);
    AppendAmong(c1 + c2 + c3 + c4 + c5 + c6, c7, fields);
    AppendAmong(c1 + c2 + c3 + c4 + c5 + c6 + c7, c8, fields);
  }

  /**
   * A body that passes @Valid also passes the services' own age and unit checks:
   * the declarative path and the business path agree on the bounds.
   */
  lemma ValidBodyPassesBusinessAgeCheck(nome: Option<string>, email: Option<string>,
                                        dataNascimento: Option<LocalDate>, hasSecretaria: bool,
                                        today: LocalDate, isEmail: string -> bool)
    requires ServidorFieldErrors(nome, email, dataNascimento, hasSecretaria, today, isEmail) == []
    ensures IsIdadeValida(dataNascimento, today) && hasSecretaria && email.Some?
  {
    var errors := ServidorFieldErrors(nome, email, dataNascimento, hasSecretaria, today, isEmail);
    assert Check(dataNascimento.Some?, "dataNascimento", "Data de nascimento é obrigatória") == [] by {
      assert |errors| == 0;
    }
  }
}
