/**
 * The two entities, `Secretaria` (an organisational unit) and `Servidor` (an
 * employee), as the mutable Java objects the services work on, and the
 * documents the store keeps for them. Java's nullable references are `Option`s;
 * `LocalDateTime.now()` is the instant passed as `now`, `LocalDate.now()` the
 * date passed as `today`.
 */
module Model {
  import opened Wrappers
  import opened Text
  import opened Dates

  /** A store-assigned document identifier (a MongoDB ObjectId, as a string). */
  type Id = string

  /** A reading of the clock (`LocalDateTime`). */
  type Instant = int

  /** A stored unit. The identifier is the key it is stored under. */
  datatype SecretariaDoc = SecretariaDoc(
    nome: Option<string>, sigla: Option<string>, createdAt: Instant, updatedAt: Instant)

  /** A stored employee. Its unit is kept as a reference (the unit's id), as @DBRef stores it. */
  datatype ServidorDoc = ServidorDoc(
    nome: Option<string>, email: Option<string>, dataNascimento: Option<LocalDate>,
    secretariaId: Option<Id>, createdAt: Instant, updatedAt: Instant)

  /** The value `setSigla` stores: the upper-cased code, and null kept as null. */
  function NormalizeSigla(sigla: Option<string>): (r: Option<string>)
    ensures r.None? <==> sigla.None?
    ensures sigla.Some? ==> |r.value| == |sigla.value| && EqualsIgnoreCase(r.value, sigla.value)
    ensures sigla.Some? ==> forall i :: 0 <= i < |r.value| ==> !('a' <= r.value[i] <= 'z')
  {
    match sigla
    case None => None
    case Some(s) =>
      EqualsIgnoreCaseIffSameUpper(ToUpperCase(s), s);
      ToUpperCaseIdempotent(s);
      Some(ToUpperCase(s))
  }

  /** Normalising is idempotent: `setSigla(getSigla())` leaves the code as it is. */
  lemma NormalizeSiglaIdempotent(sigla: Option<string>)
    ensures NormalizeSigla(NormalizeSigla(sigla)) == NormalizeSigla(sigla)
  {
    if sigla.Some? {
      ToUpperCaseIdempotent(sigla.value);
    }
  }

  // ---------------------------------------------------------------------------
  // Age rules of Servidor
  // ---------------------------------------------------------------------------

  const MIN_IDADE: int := 18
  const MAX_IDADE: int := 75

  /**
   * `Servidor.getIdade()`: 0 without a birth date, otherwise the years of
   * `Period.between(dataNascimento, today)`.
   */
  function Idade(dataNascimento: Option<LocalDate>, today: LocalDate): (r: int)
    ensures dataNascimento.None? ==> r == 0
    ensures dataNascimento.Some? && !IsBefore(today, dataNascimento.value) ==>
      var b := dataNascimento.value;
      r == today.year - b.year - (if EarlierInYear(today, b) then 1 else 0) && r >= 0
    ensures dataNascimento.Some? && IsBefore(today, dataNascimento.value) ==> r <= 0
  {
    match dataNascimento
    case None => 0
    case Some(b) =>
      PeriodYearsCases(b, today);
      PeriodYears(b, today)
  }

  /** `Servidor.isIdadeValida()`: the age lies in [18, 75]. */
  predicate IsIdadeValida(dataNascimento: Option<LocalDate>, today: LocalDate): (ok: bool)
    ensures ok ==> dataNascimento.Some? && !IsBefore(today, dataNascimento.value)
  {
    var idade := Idade(dataNascimento, today);
    MIN_IDADE <= idade && idade <= MAX_IDADE
  }

  /** Without a birth date the age is 0, so the business age rule rejects it. */
  lemma NoBirthDateIsInvalid(today: LocalDate)
    ensures !IsIdadeValida(None, today)
  {
  }

  /** A birth date not yet reached never gives a valid age. */
  lemma FutureBirthDateIsInvalid(birth: LocalDate, today: LocalDate)
    requires IsBefore(today, birth)
    ensures !IsIdadeValida(Some(birth), today)
  {
  }

  /**
   * The inclusive bounds: valid on the 18th birthday, not the day before; valid
   * up to the day before the 76th birthday, and not on it.
   */
  lemma IdadeBoundsAreInclusive(birth: LocalDate, today: LocalDate)
    ensures today.year == birth.year + 18 && today.month == birth.month && today.day == birth.day
      ==> IsIdadeValida(Some(birth), today)
    ensures today.year == birth.year + 18 && EarlierInYear(today, birth)
      ==> !IsIdadeValida(Some(birth), today)
    ensures today.year == birth.year + 76 && EarlierInYear(today, birth)
      ==> IsIdadeValida(Some(birth), today)
    ensures today.year == birth.year + 76 && today.month == birth.month && today.day == birth.day
      ==> !IsIdadeValida(Some(birth), today)
  {
    if today.year >= birth.year && (today.year == birth.year + 18 || today.year == birth.year + 76) {
      PeriodYearsClosedForm(birth, today);
    }
  }

  // ---------------------------------------------------------------------------
  // Secretaria
  // ---------------------------------------------------------------------------

  class Secretaria {
    var id: Option<Id>
    var nome: Option<string>
    var sigla: Option<string>
    var createdAt: Instant
    var updatedAt: Instant

    /** `new Secretaria()`: no fields but the two timestamps. */
    constructor Empty(now: Instant)
      ensures id.None? && nome.None? && sigla.None?
      ensures createdAt == now && updatedAt == now
    {
      id, nome, sigla := None, None, None;
      createdAt, updatedAt := now, now;
    }

    /** `new Secretaria(nome, sigla)`: the code is stored upper-cased. */
    constructor (nome: Option<string>, sigla: string, now: Instant)
      ensures id.None? && this.nome == nome && this.sigla == Some(ToUpperCase(sigla))
      ensures createdAt == now && updatedAt == now
    {
      id := None;
      this.nome := nome;
      this.sigla := Some(ToUpperCase(sigla));
      createdAt, updatedAt := now, now;
    }

    /** The object the document mapper builds from a stored document. */
    constructor Hydrate(id: Id, doc: SecretariaDoc)
      ensures this.id == Some(id) && Doc() == doc
    {
      this.id := Some(id);
      nome, sigla := doc.nome, doc.sigla;
      createdAt, updatedAt := doc.createdAt, doc.updatedAt;
    }

    /** The document that saving this object writes. */
    function Doc(): SecretariaDoc
      reads this
    {
      SecretariaDoc(nome, sigla, createdAt, updatedAt)
    }

    method SetId(id: Option<Id>)
      modifies this`id
      ensures this.id == id
    {
      this.id := id;
    }

    /** Unlike the other business setters, `setNome` leaves `updatedAt` alone. */
    method SetNome(nome: Option<string>)
      modifies this`nome
      ensures this.nome == nome
    {
      this.nome := nome;
    }

    method SetSigla(sigla: Option<string>, now: Instant)
      modifies this`sigla, this`updatedAt
      ensures this.sigla == NormalizeSigla(sigla)
      ensures updatedAt == now
    {
      this.sigla := if sigla.Some? then Some(ToUpperCase(sigla.value)) else None;
      updatedAt := now;
    }

    method SetCreatedAt(createdAt: Instant)
      modifies this`createdAt
      ensures this.createdAt == createdAt
    {
      this.createdAt := createdAt;
    }

    method SetUpdatedAt(updatedAt: Instant)
      modifies this`updatedAt
      ensures this.updatedAt == updatedAt
    {
      this.updatedAt := updatedAt;
    }

    /** `equals`: the same object, or the same id and the same code. */
    predicate Equals(o: Secretaria?): (r: bool)
      reads this, o
      ensures r <==> o != null && id == o.id && sigla == o.sigla
    {
      o != null && (this == o || (id == o.id && sigla == o.sigla))
    }

    /** `hashCode`: `Objects.hash(id, sigla)`. */
    function HashCode(): (h: int)
      reads this
      ensures -TWO_31 <= h < TWO_31
    {
      Hash2(id, sigla)
    }
  }

  /** `equals` is reflexive, symmetric and transitive, and equal units hash alike. */
  lemma SecretariaEqualsContract(a: Secretaria, b: Secretaria, c: Secretaria)
    ensures a.Equals(a)
    ensures a.Equals(b) ==> b.Equals(a)
    ensures a.Equals(b) && b.Equals(c) ==> a.Equals(c)
    ensures a.Equals(b) ==> a.HashCode() == b.HashCode()
  {
  }

  /** Only `id` and `sigla` take part in `equals`: units differing in anything else are equal. */
  lemma SecretariaEqualsIgnoresOtherFields(a: Secretaria, b: Secretaria)
    requires a.id == b.id && a.sigla == b.sigla
    ensures a.Equals(b) && a.HashCode() == b.HashCode()
  {
  }

  // ---------------------------------------------------------------------------
  // Servidor
  // ---------------------------------------------------------------------------

  class Servidor {
    var id: Option<Id>
    var nome: Option<string>
    var email: Option<string>
    var dataNascimento: Option<LocalDate>
    var secretaria: Secretaria?
    var createdAt: Instant
    var updatedAt: Instant

    /** `new Servidor()`: no fields but the two timestamps. */
    constructor Empty(now: Instant)
      ensures id.None? && nome.None? && email.None? && dataNascimento.None? && secretaria == null
      ensures createdAt == now && updatedAt == now
    {
      id, nome, email, dataNascimento, secretaria := None, None, None, None, null;
      createdAt, updatedAt := now, now;
    }

    /** `new Servidor(nome, email, dataNascimento, secretaria)`. */
    constructor (nome: Option<string>, email: Option<string>, dataNascimento: Option<LocalDate>,
                 secretaria: Secretaria?, now: Instant)
      ensures id.None? && this.nome == nome && this.email == email
      ensures this.dataNascimento == dataNascimento && this.secretaria == secretaria
      ensures createdAt == now && updatedAt == now
    {
      id := None;
      this.nome, this.email, this.dataNascimento, this.secretaria := nome, email, dataNascimento, secretaria;
      createdAt, updatedAt := now, now;
    }

    /** The object the document mapper builds; `secretaria` is the resolved @DBRef (or null). */
    constructor Hydrate(id: Id, doc: ServidorDoc, secretaria: Secretaria?)
      ensures this.id == Some(id) && this.secretaria == secretaria
      ensures nome == doc.nome && email == doc.email && dataNascimento == doc.dataNascimento
      ensures createdAt == doc.createdAt && updatedAt == doc.updatedAt
    {
      this.id := Some(id);
      nome, email, dataNascimento := doc.nome, doc.email, doc.dataNascimento;
      this.secretaria := secretaria;
      createdAt, updatedAt := doc.createdAt, doc.updatedAt;
    }

    /** The document that saving this object writes: the unit is stored by its id. */
    function Doc(): ServidorDoc
      reads this, secretaria
    {
      ServidorDoc(nome, email, dataNascimento, if secretaria == null then None else secretaria.id,
                  createdAt, updatedAt)
    }

    /** `getIdade()`: 0 without a birth date, and never negative for a birth date already reached. */
    function GetIdade(today: LocalDate): (r: int)
      reads this
      ensures dataNascimento.None? ==> r == 0
      ensures dataNascimento.Some? && !IsBefore(today, dataNascimento.value) ==> r >= 0
    {
      Idade(dataNascimento, today)
    }

    /** `isIdadeValida()`: `getIdade()` lies in [18, 75]. */
    predicate GetIsIdadeValida(today: LocalDate): (ok: bool)
      reads this
      ensures ok <==> MIN_IDADE <= GetIdade(today) <= MAX_IDADE
      ensures ok ==> dataNascimento.Some?
    {
      IsIdadeValida(dataNascimento, today)
    }

    method SetId(id: Option<Id>)
      modifies this`id
      ensures this.id == id
    {
      this.id := id;
    }

    method SetNome(nome: Option<string>, now: Instant)
      modifies this`nome, this`updatedAt
      ensures this.nome == nome && updatedAt == now
    {
      this.nome := nome;
      updatedAt := now;
    }

    method SetEmail(email: Option<string>, now: Instant)
      modifies this`email, this`updatedAt
      ensures this.email == email && updatedAt == now
    {
      this.email := email;
      updatedAt := now;
    }

    method SetDataNascimento(dataNascimento: Option<LocalDate>, now: Instant)
      modifies this`dataNascimento, this`updatedAt
      ensures this.dataNascimento == dataNascimento && updatedAt == now
    {
      this.dataNascimento := dataNascimento;
      updatedAt := now;
    }

    method SetSecretaria(secretaria: Secretaria?, now: Instant)
      modifies this`secretaria, this`updatedAt
      ensures this.secretaria == secretaria && updatedAt == now
    {
      this.secretaria := secretaria;
      updatedAt := now;
    }

    method SetCreatedAt(createdAt: Instant)
      modifies this`createdAt
      ensures this.createdAt == createdAt
    {
      this.createdAt := createdAt;
    }

    method SetUpdatedAt(updatedAt: Instant)
      modifies this`updatedAt
      ensures this.updatedAt == updatedAt
    {
      this.updatedAt := updatedAt;
    }

    /** `equals`: the same object, or the same id and the same email. */
    predicate Equals(o: Servidor?): (r: bool)
      reads this, o
      ensures r <==> o != null && id == o.id && email == o.email
    {
      o != null && (this == o || (id == o.id && email == o.email))
    }

    /** `hashCode`: `Objects.hash(id, email)`. */
    function HashCode(): (h: int)
      reads this
      ensures -TWO_31 <= h < TWO_31
    {
      Hash2(id, email)
    }
  }

  /** `equals` is reflexive, symmetric and transitive, and equal employees hash alike. */
  lemma ServidorEqualsContract(a: Servidor, b: Servidor, c: Servidor)
    ensures a.Equals(a)
    ensures a.Equals(b) ==> b.Equals(a)
    ensures a.Equals(b) && b.Equals(c) ==> a.Equals(c)
    ensures a.Equals(b) ==> a.HashCode() == b.HashCode()
  {
  }

  /** Only `id` and `email` take part in `equals`: name, birth date and unit do not. */
  lemma ServidorEqualsIgnoresOtherFields(a: Servidor, b: Servidor)
    requires a.id == b.id && a.email == b.email
    ensures a.Equals(b) && a.HashCode() == b.HashCode()
  {
  }
}
