/**
 * The two services: the unit registry (`SecretariaService`) and the employee
 * registry (`ServidorService`). Each operation looks a record up, checks the
 * business rules in a fixed order, mutates the entity object and saves it; a
 * failed check raises its error and leaves the stores as they were.
 */
module Service {
  import opened Wrappers
  import opened Text
  import opened Dates
  import opened Model
  import opened Exceptions
  import opened Repository

  // ---------------------------------------------------------------------------
  // Messages
  // ---------------------------------------------------------------------------

  const SECRETARIA_NULA: string := "Secretaria não pode ser nula"
  const SERVIDOR_NULO: string := "Servidor não pode ser nulo"
  const SECRETARIA_OBRIGATORIA: string := "Secretaria é obrigatória"
  /** What dereferencing a null unit reference raises; the handler never shows it. */
  const NULL_POINTER: string := "NullPointerException"

  function DuplicateSiglaMessage(sigla: Option<string>): string {
    "Já existe uma secretaria com a sigla: " + Str(sigla)
  }

  function DuplicateEmailMessage(email: Option<string>): string {
    "Já existe um servidor com o email: " + Str(email)
  }

  function DeleteBlockedMessage(sigla: Option<string>, count: nat): string {
    "Não é possível excluir a secretaria '" + Str(sigla) + "' pois possui "
      + NatToDecimal(count) + " servidor(es) vinculado(s)"
  }

  function InvalidAgeMessage(idade: int): string {
    "Idade inválida: " + IntToDecimal(idade) + " anos. Deve estar entre 18 e 75 anos"
  }

  /** The age can be read back from the invalid-age message: distinct ages give distinct messages. */
  lemma InvalidAgeMessageInjective(a: int, b: int)
    ensures InvalidAgeMessage(a) == InvalidAgeMessage(b) ==> a == b
  {
    var prefix := "Idade inválida: ";
    var suffix := " anos. Deve estar entre 18 e 75 anos";
    if InvalidAgeMessage(a) == InvalidAgeMessage(b) {
      var m := InvalidAgeMessage(a);
      assert m == prefix + IntToDecimal(a) + suffix;
      assert m == prefix + IntToDecimal(b) + suffix;
      assert IntToDecimal(a) == m[|prefix|..|m| - |suffix|];
      assert IntToDecimal(b) == m[|prefix|..|m| - |suffix|];
      IntToDecimalRoundTrip(a);
      IntToDecimalRoundTrip(b);
    }
  }

  // ---------------------------------------------------------------------------
  // Invariants of the two stores
  // ---------------------------------------------------------------------------

  /** No two units hold the same code, ignoring case. */
  ghost predicate UniqueSiglas(docs: map<Id, SecretariaDoc>) {
    forall k1, k2 :: k1 in docs && k2 in docs && k1 != k2 && docs[k1].sigla.Some? && docs[k2].sigla.Some?
      ==> !EqualsIgnoreCase(docs[k1].sigla.value, docs[k2].sigla.value)
  }

  /** No two employees hold the same email, ignoring case. */
  ghost predicate UniqueEmails(docs: map<Id, ServidorDoc>) {
    forall k1, k2 :: k1 in docs && k2 in docs && k1 != k2 && docs[k1].email.Some? && docs[k2].email.Some?
      ==> !EqualsIgnoreCase(docs[k1].email.value, docs[k2].email.value)
  }

  /** Every unit reference held by an employee names a stored unit. */
  ghost predicate ReferencesResolve(servidores: map<Id, ServidorDoc>, secretarias: map<Id, SecretariaDoc>) {
    forall k :: k in servidores && servidores[k].secretariaId.Some? ==> servidores[k].secretariaId.value in secretarias
  }

  /** Writing a unit whose code matches no other unit's keeps the codes unique. */
  lemma PutPreservesUniqueSiglas(docs: map<Id, SecretariaDoc>, key: Id, doc: SecretariaDoc)
    requires UniqueSiglas(docs)
    requires doc.sigla.Some? ==>
      forall k :: k in docs && k != key && docs[k].sigla.Some? ==> !EqualsIgnoreCase(docs[k].sigla.value, doc.sigla.value)
    ensures UniqueSiglas(docs[key := doc])
  {
    var d := docs[key := doc];
    forall k1, k2 | k1 in d && k2 in d && k1 != k2 && d[k1].sigla.Some? && d[k2].sigla.Some?
      ensures !EqualsIgnoreCase(d[k1].sigla.value, d[k2].sigla.value)
    {
      if k1 == key {
        EqualsIgnoreCaseIsEquivalence(d[k1].sigla.value, d[k2].sigla.value, d[k2].sigla.value);
      }
    }
  }

  /** Writing an employee whose email matches no other employee's keeps the emails unique. */
  lemma PutPreservesUniqueEmails(docs: map<Id, ServidorDoc>, key: Id, doc: ServidorDoc)
    requires UniqueEmails(docs)
    requires doc.email.Some? ==>
      forall k :: k in docs && k != key && docs[k].email.Some? ==> !EqualsIgnoreCase(docs[k].email.value, doc.email.value)
    ensures UniqueEmails(docs[key := doc])
  {
    var d := docs[key := doc];
    forall k1, k2 | k1 in d && k2 in d && k1 != k2 && d[k1].email.Some? && d[k2].email.Some?
      ensures !EqualsIgnoreCase(d[k1].email.value, d[k2].email.value)
    {
      if k1 == key {
        EqualsIgnoreCaseIsEquivalence(d[k1].email.value, d[k2].email.value, d[k2].email.value);
      }
    }
  }

  /** The stored (upper-cased) code clashes with exactly the codes the submitted one clashes with. */
  lemma NormalizedSiglaClashesAlike(stored: string, submitted: string)
    ensures EqualsIgnoreCase(stored, NormalizeSigla(Some(submitted)).value) <==> EqualsIgnoreCase(stored, submitted)
  {
    var upper := NormalizeSigla(Some(submitted)).value;
    EqualsIgnoreCaseUpperLeft(submitted, stored);
    EqualsIgnoreCaseIsEquivalence(stored, upper, upper);
    EqualsIgnoreCaseIsEquivalence(upper, stored, stored);
    EqualsIgnoreCaseIsEquivalence(stored, submitted, submitted);
    EqualsIgnoreCaseIsEquivalence(submitted, stored, stored);
  }

  /**
   * An update that keeps a unit's own code, in any case, never meets itself in
   * the uniqueness check: with unique codes, no other unit matches it.
   */
  lemma KeepingOwnSiglaPasses(repo: SecretariaRepository, id: Id, sigla: string)
    requires UniqueSiglas(repo.docs)
    requires id in repo.docs && repo.docs[id].sigla.Some? && EqualsIgnoreCase(sigla, repo.docs[id].sigla.value)
    ensures repo.ExistsBySiglaIgnoreCaseAndIdNot(Some(sigla), id) == Success(false)
  {
    var own := repo.docs[id].sigla.value;
    forall k | k in repo.docs && k != id && repo.docs[k].sigla.Some?
      ensures !EqualsIgnoreCase(repo.docs[k].sigla.value, sigla)
    {
      EqualsIgnoreCaseIsEquivalence(repo.docs[k].sigla.value, sigla, own);
    }
  }

  /** The same for an employee keeping its own email. */
  lemma KeepingOwnEmailPasses(repo: ServidorRepository, id: Id, email: string)
    requires UniqueEmails(repo.docs)
    requires id in repo.docs && repo.docs[id].email.Some? && EqualsIgnoreCase(email, repo.docs[id].email.value)
    ensures repo.ExistsByEmailIgnoreCaseAndIdNot(Some(email), id) == Success(false)
  {
    var own := repo.docs[id].email.value;
    forall k | k in repo.docs && k != id && repo.docs[k].email.Some?
      ensures !EqualsIgnoreCase(repo.docs[k].email.value, email)
    {
      EqualsIgnoreCaseIsEquivalence(repo.docs[k].email.value, email, own);
    }
  }

  // ---------------------------------------------------------------------------
  // SecretariaService
  // ---------------------------------------------------------------------------

  class SecretariaService {
    const secretariaRepository: SecretariaRepository
    const servidorRepository: ServidorRepository

    constructor (secretariaRepository: SecretariaRepository, servidorRepository: ServidorRepository)
      ensures this.secretariaRepository == secretariaRepository
      ensures this.servidorRepository == servidorRepository
    {
      this.secretariaRepository := secretariaRepository;
      this.servidorRepository := servidorRepository;
    }

    /** The stores' invariants as far as this service is concerned. */
    ghost predicate Inv()
      reads secretariaRepository, servidorRepository
    {
      && UniqueSiglas(secretariaRepository.docs)
      && ReferencesResolve(servidorRepository.docs, secretariaRepository.docs)
    }

    /** `findById`: the stored unit, or NotFound. */
    method FindById(id: Id) returns (r: Result<Secretaria, ServiceError>)
      ensures r.Failure? <==> id !in secretariaRepository.docs
      ensures r.Failure? ==> r.error == ResourceNotFound("Secretaria", "id", id)
      ensures r.Success? ==>
        fresh(r.value) && r.value.id == Some(id) && r.value.Doc() == secretariaRepository.docs[id]
    {
      var found := secretariaRepository.FindById(id);
      if found.None? {
        return Failure(ResourceNotFound("Secretaria", "id", id));
      }
      return Success(found.value);
    }

    /** `validateSecretariaForCreate`: not null, and no unit holds the code in any case. */
    function ValidateSecretariaForCreate(s: Secretaria?): (r: Outcome<ServiceError>)
      reads this, secretariaRepository, s
      ensures s == null ==> r == Fail(Business(SECRETARIA_NULA))
      ensures s != null && s.sigla.None? ==> r == Fail(IllegalArgument(RegexNullMessage("sigla")))
      ensures s != null && s.sigla.Some? ==>
        (r.Pass? <==> forall k :: k in secretariaRepository.docs && secretariaRepository.docs[k].sigla.Some?
                        ==> !EqualsIgnoreCase(secretariaRepository.docs[k].sigla.value, s.sigla.value))
      ensures s != null && s.sigla.Some? && r.Fail? ==> r.error == Business(DuplicateSiglaMessage(s.sigla))
    {
      if s == null then Fail(Business(SECRETARIA_NULA))
      else
        match secretariaRepository.ExistsBySiglaIgnoreCase(s.sigla)
        case Failure(e) => Fail(e)
        case Success(exists_) => if exists_ then Fail(Business(DuplicateSiglaMessage(s.sigla))) else Pass
    }

    /** `validateSecretariaForUpdate`: not null, and no other unit holds the code in any case. */
    function ValidateSecretariaForUpdate(id: Id, s: Secretaria?): (r: Outcome<ServiceError>)
      reads this, secretariaRepository, s
      ensures s == null ==> r == Fail(Business(SECRETARIA_NULA))
      ensures s != null && s.sigla.None? ==> r == Fail(IllegalArgument(RegexNullMessage("sigla")))
      ensures s != null && s.sigla.Some? ==>
        (r.Pass? <==> forall k :: k in secretariaRepository.docs && k != id && secretariaRepository.docs[k].sigla.Some?
                        ==> !EqualsIgnoreCase(secretariaRepository.docs[k].sigla.value, s.sigla.value))
      ensures s != null && s.sigla.Some? && r.Fail? ==> r.error == Business(DuplicateSiglaMessage(s.sigla))
    {
      if s == null then Fail(Business(SECRETARIA_NULA))
      else
        match secretariaRepository.ExistsBySiglaIgnoreCaseAndIdNot(s.sigla, id)
        case Failure(e) => Fail(e)
        case Success(exists_) => if exists_ then Fail(Business(DuplicateSiglaMessage(s.sigla))) else Pass
    }

    /**
     * `create`: validate, then save. A duplicate key on save becomes the same
     * error as the explicit check. The entity keeps any id it was given, so a
     * unit submitted with the id of a stored one replaces it.
     */
    method Create(s: Secretaria?) returns (r: Result<Secretaria, ServiceError>)
      modifies secretariaRepository, s
      ensures s != null ==> s.Doc() == old(s.Doc())
      ensures r.Failure? ==>
        && secretariaRepository.docs == old(secretariaRepository.docs)
        && (s != null ==> s.id == old(s.id))
      ensures old(ValidateSecretariaForCreate(s)).Fail? ==> r == Failure(old(ValidateSecretariaForCreate(s)).error)
      ensures old(ValidateSecretariaForCreate(s)).Pass? && r.Failure? ==>
        s != null && r.error == Business(DuplicateSiglaMessage(s.sigla))
      ensures r.Success? ==>
        && s != null && old(ValidateSecretariaForCreate(s)).Pass?
        && r.value == s && s.id.Some?
        && (old(s.id).Some? ==> s.id == old(s.id))
        && (old(s.id).None? ==> s.id.value !in old(secretariaRepository.docs))
        && secretariaRepository.docs == old(secretariaRepository.docs)[s.id.value := s.Doc()]
      ensures old(UniqueSiglas(secretariaRepository.docs)) ==> UniqueSiglas(secretariaRepository.docs)
      ensures old(Inv()) ==> Inv()
    {
      var v := ValidateSecretariaForCreate(s);
      if v.Fail? {
        return Failure(v.error);
      }
      ghost var before := secretariaRepository.docs;
      var duplicateKey := secretariaRepository.Save(s);
      if duplicateKey {
        return Failure(Business(DuplicateSiglaMessage(s.sigla)));
      }
      if UniqueSiglas(before) {
        PutPreservesUniqueSiglas(before, s.id.value, s.Doc());
      }
      return Success(s);
    }

    /**
     * `update`: look the unit up (NotFound first), validate the submitted one,
     * copy its name and upper-cased code onto the stored unit, stamp it and save.
     */
    method Update(id: Id, s: Secretaria?, now: Instant) returns (r: Result<Secretaria, ServiceError>)
      modifies secretariaRepository
      ensures r.Failure? ==> secretariaRepository.docs == old(secretariaRepository.docs)
      ensures id !in old(secretariaRepository.docs) ==> r == Failure(ResourceNotFound("Secretaria", "id", id))
      ensures id in old(secretariaRepository.docs) && old(ValidateSecretariaForUpdate(id, s)).Fail? ==>
        r == Failure(old(ValidateSecretariaForUpdate(id, s)).error)
      ensures id in old(secretariaRepository.docs) && old(ValidateSecretariaForUpdate(id, s)).Pass? && r.Failure? ==>
        s != null && r.error == Business(DuplicateSiglaMessage(s.sigla))
      ensures r.Success? ==>
        && s != null && id in old(secretariaRepository.docs) && old(ValidateSecretariaForUpdate(id, s)).Pass?
        && fresh(r.value) && r.value.id == Some(id)
        && r.value.Doc() == SecretariaDoc(s.nome, NormalizeSigla(s.sigla), old(secretariaRepository.docs[id].createdAt), now)
        && secretariaRepository.docs == old(secretariaRepository.docs)[id := r.value.Doc()]
      ensures old(UniqueSiglas(secretariaRepository.docs)) ==> UniqueSiglas(secretariaRepository.docs)
      ensures old(Inv()) ==> Inv()
    {
      var found := FindById(id);
      if found.Failure? {
        return Failure(found.error);
      }
      var existing := found.value;
      var v := ValidateSecretariaForUpdate(id, s);
      if v.Fail? {
        return Failure(v.error);
      }
      existing.SetNome(s.nome);
      existing.SetSigla(s.sigla, now);
      existing.SetUpdatedAt(now);
      ghost var before := secretariaRepository.docs;
      var duplicateKey := secretariaRepository.Save(existing);
      if duplicateKey {
        return Failure(Business(DuplicateSiglaMessage(s.sigla)));
      }
      if UniqueSiglas(before) {
        forall k | k in before && k != id && before[k].sigla.Some?
          ensures !EqualsIgnoreCase(before[k].sigla.value, existing.sigla.value)
        {
          NormalizedSiglaClashesAlike(before[k].sigla.value, s.sigla.value);
        }
        PutPreservesUniqueSiglas(before, id, existing.Doc());
      }
      return Success(existing);
    }

    /**
     * `delete`: look the unit up (NotFound), refuse while any employee
     * references it, and otherwise remove exactly that unit.
     */
    method Delete(id: Id) returns (r: Outcome<ServiceError>)
      modifies secretariaRepository
      ensures id !in old(secretariaRepository.docs) ==>
        r == Fail(ResourceNotFound("Secretaria", "id", id))
        && secretariaRepository.docs == old(secretariaRepository.docs)
      ensures id in old(secretariaRepository.docs) && servidorRepository.CountBySecretaria(id) > 0 ==>
        r == Fail(Business(DeleteBlockedMessage(old(secretariaRepository.docs[id].sigla),
                                                servidorRepository.CountBySecretaria(id))))
        && secretariaRepository.docs == old(secretariaRepository.docs)
      ensures id in old(secretariaRepository.docs) && servidorRepository.CountBySecretaria(id) == 0 ==>
        r == Pass && secretariaRepository.docs == old(secretariaRepository.docs) - {id}
      ensures old(Inv()) ==> Inv()
    {
      var found := FindById(id);
      if found.Failure? {
        return Fail(found.error);
      }
      var secretaria := found.value;
      var servidorCount := servidorRepository.CountBySecretaria(secretaria.id.value);
      if servidorCount > 0 {
        return Fail(Business(DeleteBlockedMessage(secretaria.sigla, servidorCount)));
      }
      secretariaRepository.DeleteById(id);
      return Pass;
    }
  }

  // ---------------------------------------------------------------------------
  // ServidorService
  // ---------------------------------------------------------------------------

  /** The id of the unit an employee object refers to, when it refers to one that has an id. */
  function RequestedUnit(s: Servidor?): Option<Id>
    reads s, if s == null then null else s.secretaria
  {
    if s == null || s.secretaria == null then None else s.secretaria.id
  }

  class ServidorService {
    const servidorRepository: ServidorRepository
    const secretariaService: SecretariaService

    constructor (servidorRepository: ServidorRepository, secretariaService: SecretariaService)
      ensures this.servidorRepository == servidorRepository
      ensures this.secretariaService == secretariaService
    {
      this.servidorRepository := servidorRepository;
      this.secretariaService := secretariaService;
    }

    /**
     * The wiring the container sets up: one employee store, whose unit
     * references resolve against the store the unit service reads.
     */
    predicate Wired() {
      && servidorRepository.secretarias == secretariaService.secretariaRepository
      && secretariaService.servidorRepository == servidorRepository
    }

    ghost predicate Inv()
      reads servidorRepository, secretariaService.secretariaRepository
    {
      && UniqueEmails(servidorRepository.docs)
      && ReferencesResolve(servidorRepository.docs, secretariaService.secretariaRepository.docs)
    }

    /** `findById`: the stored employee, with its unit reference resolved, or NotFound. */
    method FindById(id: Id) returns (r: Result<Servidor, ServiceError>)
      ensures r.Failure? <==> id !in servidorRepository.docs
      ensures r.Failure? ==> r.error == ResourceNotFound("Servidor", "id", id)
      ensures r.Success? ==> fresh(r.value) && servidorRepository.Loaded(r.value, id, servidorRepository.docs[id])
      ensures r.Success? && r.value.secretaria != null ==> fresh(r.value.secretaria)
    {
      var found := servidorRepository.FindById(id);
      if found.None? {
        return Failure(ResourceNotFound("Servidor", "id", id));
      }
      return Success(found.value);
    }

    /**
     * The checks both validations share after the email check: the age lies in
     * [18, 75], and a unit with an id is given.
     */
    function ValidateAgeAndUnit(s: Servidor, today: LocalDate): (r: Outcome<ServiceError>)
      reads s, s.secretaria
      ensures !IsIdadeValida(s.dataNascimento, today) ==>
        r == Fail(Business(InvalidAgeMessage(Idade(s.dataNascimento, today))))
      ensures IsIdadeValida(s.dataNascimento, today) ==>
        (r.Pass? <==> RequestedUnit(s).Some?) && (r.Fail? ==> r.error == Business(SECRETARIA_OBRIGATORIA))
    {
      if !s.GetIsIdadeValida(today) then Fail(Business(InvalidAgeMessage(s.GetIdade(today))))
      else if s.secretaria == null || s.secretaria.id.None? then Fail(Business(SECRETARIA_OBRIGATORIA))
      else Pass
    }

    /** `validateServidorForCreate`: not null, an email no employee holds in any case, the age, the unit. */
    function ValidateServidorForCreate(s: Servidor?, today: LocalDate): (r: Outcome<ServiceError>)
      reads this, servidorRepository, s, if s == null then null else s.secretaria
      ensures s == null ==> r == Fail(Business(SERVIDOR_NULO))
      ensures s != null && s.email.None? ==> r == Fail(IllegalArgument(RegexNullMessage("email")))
      ensures s != null && s.email.Some? &&
              (exists k :: k in servidorRepository.docs && servidorRepository.docs[k].email.Some?
                 && EqualsIgnoreCase(servidorRepository.docs[k].email.value, s.email.value)) ==>
        r == Fail(Business(DuplicateEmailMessage(s.email)))
      ensures s != null && s.email.Some? &&
              (forall k :: k in servidorRepository.docs && servidorRepository.docs[k].email.Some?
                 ==> !EqualsIgnoreCase(servidorRepository.docs[k].email.value, s.email.value)) ==>
        r == ValidateAgeAndUnit(s, today)
      ensures r.Pass? ==> s != null && s.email.Some? && IsIdadeValida(s.dataNascimento, today) && RequestedUnit(s).Some?
    {
      if s == null then Fail(Business(SERVIDOR_NULO))
      else
        match servidorRepository.ExistsByEmailIgnoreCase(s.email)
        case Failure(e) => Fail(e)
        case Success(exists_) =>
          if exists_ then Fail(Business(DuplicateEmailMessage(s.email))) else ValidateAgeAndUnit(s, today)
    }

    /** `validateServidorForUpdate`: the same, the email being compared with the other employees only. */
    function ValidateServidorForUpdate(id: Id, s: Servidor?, today: LocalDate): (r: Outcome<ServiceError>)
      reads this, servidorRepository, s, if s == null then null else s.secretaria
      ensures s == null ==> r == Fail(Business(SERVIDOR_NULO))
      ensures s != null && s.email.None? ==> r == Fail(IllegalArgument(RegexNullMessage("email")))
      ensures s != null && s.email.Some? &&
              (exists k :: k in servidorRepository.docs && k != id && servidorRepository.docs[k].email.Some?
                 && EqualsIgnoreCase(servidorRepository.docs[k].email.value, s.email.value)) ==>
        r == Fail(Business(DuplicateEmailMessage(s.email)))
      ensures s != null && s.email.Some? &&
              (forall k :: k in servidorRepository.docs && k != id && servidorRepository.docs[k].email.Some?
                 ==> !EqualsIgnoreCase(servidorRepository.docs[k].email.value, s.email.value)) ==>
        r == ValidateAgeAndUnit(s, today)
      ensures r.Pass? ==> s != null && s.email.Some? && IsIdadeValida(s.dataNascimento, today) && RequestedUnit(s).Some?
    {
      if s == null then Fail(Business(SERVIDOR_NULO))
      else
        match servidorRepository.ExistsByEmailIgnoreCaseAndIdNot(s.email, id)
        case Failure(e) => Fail(e)
        case Success(exists_) =>
          if exists_ then Fail(Business(DuplicateEmailMessage(s.email))) else ValidateAgeAndUnit(s, today)
    }

    /**
     * `create`: validate, resolve the requested unit through the unit service
     * (its NotFound propagates), attach the resolved unit and save. A duplicate
     * key on save becomes the email error.
     */
    method Create(s: Servidor?, today: LocalDate, now: Instant) returns (r: Result<Servidor, ServiceError>)
      modifies servidorRepository, s
      ensures s != null ==>
        s.nome == old(s.nome) && s.email == old(s.email) && s.dataNascimento == old(s.dataNascimento)
        && s.createdAt == old(s.createdAt)
      ensures r.Failure? ==> servidorRepository.docs == old(servidorRepository.docs) && (s != null ==> s.id == old(s.id))
      ensures old(ValidateServidorForCreate(s, today)).Fail? ==>
        r == Failure(old(ValidateServidorForCreate(s, today)).error)
        && (s != null ==> s.secretaria == old(s.secretaria) && s.updatedAt == old(s.updatedAt))
      ensures old(ValidateServidorForCreate(s, today)).Pass?
              && old(RequestedUnit(s)).value !in secretariaService.secretariaRepository.docs ==>
        r == Failure(ResourceNotFound("Secretaria", "id", old(RequestedUnit(s)).value))
      ensures old(ValidateServidorForCreate(s, today)).Pass?
              && old(RequestedUnit(s)).value in secretariaService.secretariaRepository.docs && r.Failure? ==>
        s != null && r.error == Business(DuplicateEmailMessage(s.email))
      ensures r.Success? ==>
        && s != null && old(ValidateServidorForCreate(s, today)).Pass?
        && r.value == s && s.id.Some?
        && (old(s.id).Some? ==> s.id == old(s.id))
        && (old(s.id).None? ==> s.id.value !in old(servidorRepository.docs))
        && s.secretaria != null && fresh(s.secretaria) && s.secretaria.id == old(RequestedUnit(s))
        && s.secretaria.id.value in secretariaService.secretariaRepository.docs
        && s.secretaria.Doc() == secretariaService.secretariaRepository.docs[s.secretaria.id.value]
        && s.updatedAt == now
        && servidorRepository.docs == old(servidorRepository.docs)[s.id.value := s.Doc()]
      ensures Wired() && old(Inv()) ==> Inv()
    {
      var v := ValidateServidorForCreate(s, today);
      if v.Fail? {
        return Failure(v.error);
      }
      var found := secretariaService.FindById(s.secretaria.id.value);
      if found.Failure? {
        return Failure(found.error);
      }
      var secretaria := found.value;
      s.SetSecretaria(secretaria, now);
      ghost var before := servidorRepository.docs;
      var duplicateKey := servidorRepository.Save(s);
      if duplicateKey {
        return Failure(Business(DuplicateEmailMessage(s.email)));
      }
      if UniqueEmails(before) {
        PutPreservesUniqueEmails(before, s.id.value, s.Doc());
      }
      return Success(s);
    }

    /**
     * `update`: look the employee up (NotFound first) and validate the submitted
     * one. The stored unit reference is dereferenced (a dangling one raises a
     * NullPointerException); only when the requested unit id differs is the unit
     * resolved again and replaced. Then the name, email and birth date are
     * copied over, the entity stamped and saved.
     */
    method Update(id: Id, s: Servidor?, today: LocalDate, now: Instant) returns (r: Result<Servidor, ServiceError>)
      modifies servidorRepository
      ensures r.Failure? ==> servidorRepository.docs == old(servidorRepository.docs)
      ensures id !in old(servidorRepository.docs) ==> r == Failure(ResourceNotFound("Servidor", "id", id))
      ensures id in old(servidorRepository.docs) && old(ValidateServidorForUpdate(id, s, today)).Fail? ==>
        r == Failure(old(ValidateServidorForUpdate(id, s, today)).error)
      ensures id in old(servidorRepository.docs) && old(ValidateServidorForUpdate(id, s, today)).Pass?
              && !Resolves(old(servidorRepository.docs[id])) ==>
        r == Failure(Unexpected(NULL_POINTER))
      ensures id in old(servidorRepository.docs) && old(ValidateServidorForUpdate(id, s, today)).Pass?
              && Resolves(old(servidorRepository.docs[id]))
              && old(servidorRepository.docs[id].secretariaId) != old(RequestedUnit(s))
              && old(RequestedUnit(s)).value !in secretariaService.secretariaRepository.docs ==>
        r == Failure(ResourceNotFound("Secretaria", "id", old(RequestedUnit(s)).value))
      ensures id in old(servidorRepository.docs) && old(ValidateServidorForUpdate(id, s, today)).Pass?
              && Resolves(old(servidorRepository.docs[id]))
              && (old(servidorRepository.docs[id].secretariaId) == old(RequestedUnit(s))
                  || old(RequestedUnit(s)).value in secretariaService.secretariaRepository.docs)
              && r.Failure? ==>
        s != null && r.error == Business(DuplicateEmailMessage(s.email))
      ensures r.Success? ==>
        && s != null && id in old(servidorRepository.docs) && old(ValidateServidorForUpdate(id, s, today)).Pass?
        && Resolves(old(servidorRepository.docs[id]))
        && fresh(r.value) && r.value.id == Some(id)
        && r.value.secretaria != null && fresh(r.value.secretaria)
        && r.value.secretaria.id == old(RequestedUnit(s))
        && r.value.Doc() == ServidorDoc(s.nome, s.email, s.dataNascimento, old(RequestedUnit(s)),
                                        old(servidorRepository.docs[id].createdAt), now)
        && servidorRepository.docs == old(servidorRepository.docs)[id := r.value.Doc()]
      // The unit is the one loaded with the employee when its id is unchanged, and the unit
      // service's lookup of the requested id otherwise.
      ensures r.Success? && old(servidorRepository.docs[id].secretariaId) == old(RequestedUnit(s)) ==>
        r.value.secretaria.Doc() == servidorRepository.secretarias.docs[old(RequestedUnit(s)).value]
      ensures r.Success? && old(servidorRepository.docs[id].secretariaId) != old(RequestedUnit(s)) ==>
        && old(RequestedUnit(s)).value in secretariaService.secretariaRepository.docs
        && r.value.secretaria.Doc() == secretariaService.secretariaRepository.docs[old(RequestedUnit(s)).value]
      ensures Wired() && old(Inv()) ==> Inv()
    {
      var found := FindById(id);
      if found.Failure? {
        return Failure(found.error);
      }
      var existing := found.value;
      var v := ValidateServidorForUpdate(id, s, today);
      if v.Fail? {
        return Failure(v.error);
      }
      if existing.secretaria == null || existing.secretaria.id.None? {
        return Failure(Unexpected(NULL_POINTER));
      }
      var unitError := ReplaceUnitIfChanged(existing, s.secretaria.id.value, now);
      if unitError.Some? {
        return Failure(unitError.value);
      }
      ghost var before := servidorRepository.docs;
      var duplicateKey := CopyAndSave(existing, s, now);
      if duplicateKey {
        return Failure(Business(DuplicateEmailMessage(s.email)));
      }
      if UniqueEmails(before) {
        PutPreservesUniqueEmails(before, id, existing.Doc());
      }
      return Success(existing);
    }

    /** The last steps of `update`: copy name, email and birth date over, stamp, save. */
    method CopyAndSave(existing: Servidor, s: Servidor, now: Instant) returns (duplicateKey: bool)
      requires existing.id.Some?
      modifies servidorRepository, existing`nome, existing`email, existing`dataNascimento, existing`updatedAt, existing`id
      ensures existing.nome == old(s.nome) && existing.email == old(s.email)
      ensures existing.dataNascimento == old(s.dataNascimento) && existing.updatedAt == now
      ensures existing.id == old(existing.id)
      ensures duplicateKey ==> servidorRepository.docs == old(servidorRepository.docs)
      ensures !duplicateKey ==> servidorRepository.docs == old(servidorRepository.docs)[existing.id.value := existing.Doc()]
    {
      existing.SetNome(s.nome, now);
      existing.SetEmail(s.email, now);
      existing.SetDataNascimento(s.dataNascimento, now);
      existing.SetUpdatedAt(now);
      duplicateKey := servidorRepository.Save(existing);
    }

    /**
     * The unit step of `update`: the loaded unit stays when the requested id is
     * its own; otherwise the requested unit is resolved through the unit service
     * (NotFound when it is unknown) and attached.
     */
    method ReplaceUnitIfChanged(existing: Servidor, requested: Id, now: Instant) returns (err: Option<ServiceError>)
      requires existing.secretaria != null && existing.secretaria.id.Some?
      modifies existing`secretaria, existing`updatedAt
      ensures old(existing.secretaria.id) == Some(requested) ==>
        err.None? && existing.secretaria == old(existing.secretaria) && existing.updatedAt == old(existing.updatedAt)
      ensures old(existing.secretaria.id) != Some(requested) && requested !in secretariaService.secretariaRepository.docs ==>
        err == Some(ResourceNotFound("Secretaria", "id", requested))
      ensures old(existing.secretaria.id) != Some(requested) && requested in secretariaService.secretariaRepository.docs ==>
        && err.None? && existing.secretaria != null && fresh(existing.secretaria)
        && existing.secretaria.id == Some(requested)
        && existing.secretaria.Doc() == secretariaService.secretariaRepository.docs[requested]
        && existing.updatedAt == now
    {
      if existing.secretaria.id.value != requested {
        var resolved := secretariaService.FindById(requested);
        if resolved.Failure? {
          return Some(resolved.error);
        }
        existing.SetSecretaria(resolved.value, now);
      }
      return None;
    }

    /** `delete`: look the employee up (NotFound), then remove exactly that employee. */
    method Delete(id: Id) returns (r: Outcome<ServiceError>)
      modifies servidorRepository
      ensures id !in old(servidorRepository.docs) ==>
        r == Fail(ResourceNotFound("Servidor", "id", id)) && servidorRepository.docs == old(servidorRepository.docs)
      ensures id in old(servidorRepository.docs) ==>
        r == Pass && servidorRepository.docs == old(servidorRepository.docs) - {id}
      ensures old(Inv()) ==> Inv()
    {
      var found := FindById(id);
      if found.Failure? {
        return Fail(found.error);
      }
      servidorRepository.DeleteById(id);
      return Pass;
    }

    /** Whether a stored employee's unit reference resolves when the employee is loaded. */
    predicate Resolves(doc: ServidorDoc)
      reads servidorRepository.secretarias
    {
      doc.secretariaId.Some? && doc.secretariaId.value in servidorRepository.secretarias.docs
    }
  }
}
