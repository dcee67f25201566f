/**
 * The persistence port: one collection per entity, keyed by document id, with
 * the derived queries the services call. Reading a document builds a fresh
 * entity object; saving writes the entity's document (inserting under a new id
 * when it has none, replacing the document under its id otherwise).
 */
module Repository {
  import opened Wrappers
  import opened Text
  import opened Model
  import opened Exceptions

  /**
   * A derived `...IgnoreCase` query matches with a case-insensitive regular
   * expression, and refuses a null argument with this IllegalArgumentException.
   */
  function RegexNullMessage(property: string): string {
    "Argument for creating $regex pattern for property '" + property + "' must not be null"
  }

  /** Some length exceeds every length in a finite set of strings. */
  lemma {:induction false} LongerThanAll(keys: set<string>) returns (n: nat)
    ensures forall k :: k in keys ==> |k| < n
    decreases |keys|
  {
    if keys == {} {
      n := 0;
    } else {
      var k :| k in keys;
      var m := LongerThanAll(keys - {k});
      n := if |k| < m then m else |k| + 1;
    }
  }

  /** The store can always assign an id that is not yet in use. */
  lemma FreshIdExists(keys: set<Id>)
    ensures exists id: Id :: id !in keys
  {
    var n := LongerThanAll(keys);
    var id: Id := seq(n, _ => '0');
    assert id !in keys;
  }

  class SecretariaRepository {
    var docs: map<Id, SecretariaDoc>

    constructor ()
      ensures docs == map[]
    {
      docs := map[];
    }

    /** `existsBySiglaIgnoreCase`. */
    function ExistsBySiglaIgnoreCase(sigla: Option<string>): (r: Result<bool, ServiceError>)
      reads this
      ensures sigla.None? ==> r == Failure(IllegalArgument(RegexNullMessage("sigla")))
      ensures sigla.Some? ==> r.Success? && (r.value <==>
        exists k :: k in docs && docs[k].sigla.Some? && ToUpperCase(docs[k].sigla.value) == ToUpperCase(sigla.value))
    {
      match sigla
      case None => Failure(IllegalArgument(RegexNullMessage("sigla")))
      case Some(s) =>
        EqualsIgnoreCaseIffSameUpperAll();
        Success(exists k :: k in docs && docs[k].sigla.Some? && EqualsIgnoreCase(docs[k].sigla.value, s))
    }

    /** `existsBySiglaIgnoreCaseAndIdNot`: the same, among the other units only. */
    function ExistsBySiglaIgnoreCaseAndIdNot(sigla: Option<string>, id: Id): (r: Result<bool, ServiceError>)
      reads this
      ensures sigla.None? ==> r == Failure(IllegalArgument(RegexNullMessage("sigla")))
      ensures sigla.Some? ==> r.Success? && (r.value <==>
        exists k :: k in docs && k != id && docs[k].sigla.Some? && ToUpperCase(docs[k].sigla.value) == ToUpperCase(sigla.value))
    {
      match sigla
      case None => Failure(IllegalArgument(RegexNullMessage("sigla")))
      case Some(s) =>
        EqualsIgnoreCaseIffSameUpperAll();
        Success(exists k :: k in docs && k != id && docs[k].sigla.Some? && EqualsIgnoreCase(docs[k].sigla.value, s))
    }

    /**
     * The unique index on `sigla` (exact values; null counts as a value) rejects
     * this write. The model assumes the index exists in the database: `@Indexed`
     * only declares it, and nothing in the program turns on automatic index
     * creation or creates it by hand.
     */
    predicate SiglaIndexClash(key: Id, doc: SecretariaDoc)
      reads this
    {
      exists k :: k in docs && k != key && docs[k].sigla == doc.sigla
    }

    method FindById(id: Id) returns (r: Option<Secretaria>)
      ensures r.Some? <==> id in docs
      ensures r.Some? ==> fresh(r.value) && r.value.id == Some(id) && r.value.Doc() == docs[id]
    {
      if id in docs {
        var s := new Secretaria.Hydrate(id, docs[id]);
        return Some(s);
      }
      return None;
    }

    /**
     * `save`. The write fails with a duplicate key when the (assumed) unique
     * index on `sigla` rejects it, or when another writer took the key after the caller's
     * own check (`raced`, which this model leaves open).
     */
    method Save(entity: Secretaria) returns (duplicateKey: bool)
      modifies this, entity`id
      ensures duplicateKey ==> docs == old(docs) && entity.id == old(entity.id)
      ensures !duplicateKey ==>
        && entity.id.Some?
        && (old(entity.id).Some? ==> entity.id == old(entity.id))
        && (old(entity.id).None? ==> entity.id.value !in old(docs))
        && docs == old(docs)[entity.id.value := entity.Doc()]
        && (forall k :: k in old(docs) && k != entity.id.value ==> old(docs)[k].sigla != entity.sigla)
      ensures old(entity.id).Some? && old(SiglaIndexClash(entity.id.value, entity.Doc())) ==> duplicateKey
    {
      var raced: bool :| true;
      var key: Id;
      if entity.id.Some? {
        key := entity.id.value;
      } else {
        FreshIdExists(docs.Keys);
        key :| key !in docs;
      }
      if raced || SiglaIndexClash(key, entity.Doc()) {
        return true;
      }
      docs := docs[key := entity.Doc()];
      entity.id := Some(key);
      return false;
    }

    method DeleteById(id: Id)
      modifies this
      ensures docs == old(docs) - {id}
    {
      docs := docs - {id};
    }
  }

  class ServidorRepository {
    /** The collection this collection's @DBRef fields point into. */
    const secretarias: SecretariaRepository
    var docs: map<Id, ServidorDoc>

    constructor (secretarias: SecretariaRepository)
      ensures this.secretarias == secretarias && docs == map[]
    {
      this.secretarias := secretarias;
      docs := map[];
    }

    /** `existsByEmailIgnoreCase`. */
    function ExistsByEmailIgnoreCase(email: Option<string>): (r: Result<bool, ServiceError>)
      reads this
      ensures email.None? ==> r == Failure(IllegalArgument(RegexNullMessage("email")))
      ensures email.Some? ==> r.Success? && (r.value <==>
        exists k :: k in docs && docs[k].email.Some? && ToUpperCase(docs[k].email.value) == ToUpperCase(email.value))
    {
      match email
      case None => Failure(IllegalArgument(RegexNullMessage("email")))
      case Some(e) =>
        EqualsIgnoreCaseIffSameUpperAll();
        Success(exists k :: k in docs && docs[k].email.Some? && EqualsIgnoreCase(docs[k].email.value, e))
    }

    /** `existsByEmailIgnoreCaseAndIdNot`: the same, among the other employees only. */
    function ExistsByEmailIgnoreCaseAndIdNot(email: Option<string>, id: Id): (r: Result<bool, ServiceError>)
      reads this
      ensures email.None? ==> r == Failure(IllegalArgument(RegexNullMessage("email")))
      ensures email.Some? ==> r.Success? && (r.value <==>
        exists k :: k in docs && k != id && docs[k].email.Some? && ToUpperCase(docs[k].email.value) == ToUpperCase(email.value))
    {
      match email
      case None => Failure(IllegalArgument(RegexNullMessage("email")))
      case Some(e) =>
        EqualsIgnoreCaseIffSameUpperAll();
        Success(exists k :: k in docs && k != id && docs[k].email.Some? && EqualsIgnoreCase(docs[k].email.value, e))
    }

    /** The employees whose unit reference is `secretariaId`. */
    function ReferencingIds(secretariaId: Id): set<Id>
      reads this
    {
      set k | k in docs && docs[k].secretariaId == Some(secretariaId)
    }

    /** `countBySecretaria`: how many employees reference the unit. */
    function CountBySecretaria(secretariaId: Id): (n: nat)
      reads this
      ensures n == 0 <==> forall k :: k in docs ==> docs[k].secretariaId != Some(secretariaId)
    {
      var ids := ReferencingIds(secretariaId);
      if ids == {} then
        assert forall k :: k in docs && docs[k].secretariaId == Some(secretariaId) ==> k in ids;
        0
      else
        var k :| k in ids;
        assert k in docs && docs[k].secretariaId == Some(secretariaId);
        |ids|
    }

    /** `s` is what the mapper builds from document `doc` stored under `id`, resolving its @DBRef. */
    ghost predicate Loaded(s: Servidor, id: Id, doc: ServidorDoc)
      reads this, secretarias, s, s.secretaria
    {
      && s.id == Some(id)
      && s.nome == doc.nome && s.email == doc.email && s.dataNascimento == doc.dataNascimento
      && s.createdAt == doc.createdAt && s.updatedAt == doc.updatedAt
      && (if doc.secretariaId.Some? && doc.secretariaId.value in secretarias.docs
          then s.secretaria != null && s.secretaria.id == doc.secretariaId
               && s.secretaria.Doc() == secretarias.docs[doc.secretariaId.value]
          else s.secretaria == null)
    }

    method FindById(id: Id) returns (r: Option<Servidor>)
      ensures r.Some? <==> id in docs
      ensures r.Some? ==> fresh(r.value) && Loaded(r.value, id, docs[id])
      ensures r.Some? && r.value.secretaria != null ==> fresh(r.value.secretaria)
    {
      if id !in docs {
        return None;
      }
      var doc := docs[id];
      var secretaria: Secretaria? := null;
      if doc.secretariaId.Some? && doc.secretariaId.value in secretarias.docs {
        secretaria := new Secretaria.Hydrate(doc.secretariaId.value, secretarias.docs[doc.secretariaId.value]);
      }
      var s := new Servidor.Hydrate(id, doc, secretaria);
      return Some(s);
    }

    /**
     * `save`. No unique index is declared on this collection, so the deployed
     * store never rejects a write with a duplicate key: a concurrent writer
     * leaves two documents with the same email instead. The `raced` flag
     * over-approximates this by letting any save fail.
     */
    method Save(entity: Servidor) returns (duplicateKey: bool)
      modifies this, entity`id
      ensures duplicateKey ==> docs == old(docs) && entity.id == old(entity.id)
      ensures !duplicateKey ==>
        && entity.id.Some?
        && (old(entity.id).Some? ==> entity.id == old(entity.id))
        && (old(entity.id).None? ==> entity.id.value !in old(docs))
        && docs == old(docs)[entity.id.value := entity.Doc()]
    {
      var raced: bool :| true;
      if raced {
        return true;
      }
      var key: Id;
      if entity.id.Some? {
        key := entity.id.value;
      } else {
        FreshIdExists(docs.Keys);
        key :| key !in docs;
      }
      docs := docs[key := entity.Doc()];
      entity.id := Some(key);
      return false;
    }

    method DeleteById(id: Id)
      modifies this
      ensures docs == old(docs) - {id}
    {
      docs := docs - {id};
    }
  }
}
