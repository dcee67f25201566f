# Municipal registry: units and employees

This project models the core of a municipal administration back end. There are two registries:

- **Units** (`Secretaria`). Each has a name and a short code (`sigla`). The code is stored upper-cased and is unique regardless of case. A unit cannot be deleted while an employee still references it.
- **Employees** (`Servidor`). Each has a name, an email, a birth date and a reference to a unit. The email is unique regardless of case. The age must lie in [18, 75]. The unit reference must resolve through the unit service.

Each service operation follows the same steps: look the record up, run the business checks in a fixed order, change the entity object through its setters, and save it. Every failure is one of the error kinds of `Exceptions.ServiceError`. The global exception handler maps each kind to an HTTP status, a label and a message.

Layout, one module per file:

| file | module | what it holds |
|---|---|---|
| `wrappers.dfy` | `Wrappers` | `Option`, `Result`, `Outcome` |
| `text.dfy` | `Text` | ASCII case mapping, `equalsIgnoreCase`, blankness, UTF-16 length, `Objects.hash`, decimal rendering |
| `dates.dfy` | `Dates` | `LocalDate`, and `Period.between(..).getYears()` computed the way `LocalDate.until` does |
| `model.dfy` | `Model` | the entity classes `Secretaria` and `Servidor` with their setters, `equals` and `hashCode`; the stored documents; the age rule |
| `exceptions.dfy` | `Exceptions` | the error kinds |
| `validation.dfy` | `Validation` | `@IdadeValida` and its validator; the field constraints as the list of field errors they produce |
| `handler.dfy` | `ExceptionHandler` | the handlers, and the loop that builds the field-error map |
| `repository.dfy` | `Repository` | the two document stores (`map<Id, Doc>`) and the derived queries the services call |
| `service.dfy` | `Service` | `SecretariaService`, `ServidorService`, and the invariants of the stores |

How the model stands in for things outside the program:

- **Clocks.** `LocalDateTime.now()` is a parameter `now: Instant`. `LocalDate.now()` is a parameter `today: LocalDate`.
- **Stores.** A store keeps plain documents. Reading a record builds a fresh entity object, as the document mapper does. A unit reference (`@DBRef`) is stored as the unit's id. It is resolved when the employee is read, and a reference to a missing unit reads back as null.
- **IgnoreCase with null.** A derived `...IgnoreCase` query given a null argument fails with an `IllegalArgumentException`. The message is "Argument for creating $regex pattern for property '…' must not be null". This is the behaviour of Spring Data MongoDB's regex criteria, whose code is not part of this model.
- **Save.** `save` inserts under a fresh id when the entity has none, and replaces the document under its id otherwise. The unit store is assumed to hold the unique index that `@Indexed(unique = true)` declares on `sigla`, and to enforce it by exact value. The program itself neither turns on automatic index creation nor creates the index by hand, so this is an assumption about the deployed database. A flag chosen nondeterministically inside `save` (`raced`) stands for a concurrent writer. It lets any save fail with a duplicate key after the service's own check passed.

Three behaviours of the code worth stating:

- **Error kinds.** A null input, a duplicate code, a duplicate email, an age out of bounds and a missing unit are all `BusinessException`s, and all map to 400 "Erro de negócio".
- **Create keeps a submitted id.** `create` keeps any id the submitted entity already carries, and `save` then replaces the stored record under that id. `Service.SecretariaService.Create` and `Service.ServidorService.Create` state this: the new store is the old one with the entity's document written under the entity's id, and the id is fresh only when none was given.
- **Dangling unit reference on update.** When the stored employee's unit reference does not resolve, `ServidorService.update` dereferences null. It fails with an unexpected error (500), not NotFound.

## Model

| member | source | states |
|---|---|---|
| Text.Utf16Units | src/main/java/com/municipal/model/Secretaria.java:19 | every UTF-16 code unit of a string is in [0, 0xFFFF], and a string has at least as many units as characters and at most twice as many; `@Size` counts these units |
| Text.Utf16LengthOfBmp | src/main/java/com/municipal/model/Secretaria.java:19 | for a string without supplementary characters, the length `@Size` sees is the number of characters |
| Text.Wrap32 | src/main/java/com/municipal/model/Secretaria.java:94 | the result lies in the range of a Java `int` and is congruent to the input mod 2^32, which is the wrap-around of the hash arithmetic |
| Text.EqualsIgnoreCaseIffSameUpper | src/main/java/com/municipal/repository/SecretariaRepository.java:21 | two strings match ignoring case exactly when their upper-cased forms are equal |
| Text.EqualsIgnoreCaseIsEquivalence | src/main/java/com/municipal/repository/SecretariaRepository.java:21 | matching ignoring case is reflexive, symmetric and transitive |
| Text.EqualsIgnoreCaseUpperLeft | src/main/java/com/municipal/model/Secretaria.java:63-64 | an upper-cased code matches, ignoring case, exactly the strings the original code matches |
| Text.ToUpperCaseIdempotent | src/main/java/com/municipal/model/Secretaria.java:64 | upper-casing twice equals upper-casing once |
| Text.NatToDecimalRoundTrip | src/main/java/com/municipal/service/SecretariaService.java:110-111 | the `%d` rendering of a count is a non-empty digit string that reads back as the count |
| Text.IntToDecimalRoundTrip | src/main/java/com/municipal/service/ServidorService.java:134-136 | the rendering of a signed age (minus sign, then digits) reads back as the age, so distinct ages give distinct messages |
| Dates.PeriodYearsClosedForm | src/main/java/com/municipal/model/Servidor.java:63 | for a birth date not after today, the years of the period are the year difference, less one before the anniversary in the year; the result is never negative |
| Dates.PeriodYearsCases | src/main/java/com/municipal/model/Servidor.java:63 | the closed form when the start is not later than the end, and at most 0 when it is later |
| Dates.PeriodYearsAntisymmetric | src/main/java/com/municipal/validation/IdadeValidaValidator.java:26 | swapping the two dates negates the years, as Java's truncating division does |
| Dates.PeriodYearsOfFutureStart | src/main/java/com/municipal/validation/IdadeValidaValidator.java:26 | a birth date after today gives an age of at most 0 |
| Dates.PeriodYearsOnAnniversary | src/main/java/com/municipal/model/Servidor.java:63 | on the n-th birthday the age is exactly n |
| Dates.PeriodYearsBeforeAnniversary | src/main/java/com/municipal/model/Servidor.java:63 | in the year of the n-th birthday, before that day, the age is n - 1 |
| Dates.PeriodYearsMonotonic | src/main/java/com/municipal/model/Servidor.java:63 | for a fixed birth date, the age never decreases as today advances |
| Model.NormalizeSigla | src/main/java/com/municipal/model/Secretaria.java:63-64 | null stays null; a code keeps its length, matches the submitted code ignoring case, and holds no lower-case letter |
| Model.NormalizeSiglaIdempotent | src/main/java/com/municipal/model/Secretaria.java:63-64 | normalising a normalised code changes nothing, so `setSigla(getSigla())` keeps the code |
| Model.Idade | src/main/java/com/municipal/model/Servidor.java:59-64 | 0 without a birth date; otherwise the calendar-year difference less one before the anniversary, never negative for a past date, and at most 0 for a future one |
| Model.NoBirthDateIsInvalid | src/main/java/com/municipal/model/Servidor.java:59-70 | with no birth date the age is 0, so the age rule rejects the employee |
| Model.FutureBirthDateIsInvalid | src/main/java/com/municipal/model/Servidor.java:63-70 | a birth date not yet reached never passes the age rule |
| Model.IsIdadeValida | src/main/java/com/municipal/model/Servidor.java:67-70 | a valid age needs a birth date that today has already reached |
| Model.IdadeBoundsAreInclusive | src/main/java/com/municipal/model/Servidor.java:67-70 | the rule holds on the 18th birthday but not the day before, and up to the day before the 76th birthday but not on it |
| Model.Secretaria.Empty | src/main/java/com/municipal/model/Secretaria.java:31-34 | a new unit has no id, name or code, and both timestamps are the clock reading |
| Model.Secretaria.constructor | src/main/java/com/municipal/model/Secretaria.java:36-40 | the name is stored as given and the code upper-cased; no id; both timestamps set |
| Model.Secretaria.Hydrate | src/main/java/com/municipal/model/Secretaria.java:12-28 | the object read from the store has the document's key as its id and writes back exactly the document it was read from |
| Model.Secretaria.SetId | src/main/java/com/municipal/model/Secretaria.java:47-49 | only `id` changes |
| Model.Secretaria.SetNome | src/main/java/com/municipal/model/Secretaria.java:55-57 | only `nome` changes; `updatedAt` is not touched |
| Model.Secretaria.SetSigla | src/main/java/com/municipal/model/Secretaria.java:63-66 | `sigla` becomes the upper-cased value (null stays null) and `updatedAt` the clock reading; nothing else changes |
| Model.Secretaria.SetCreatedAt | src/main/java/com/municipal/model/Secretaria.java:72-74 | only `createdAt` changes |
| Model.Secretaria.SetUpdatedAt | src/main/java/com/municipal/model/Secretaria.java:80-82 | only `updatedAt` changes |
| Model.Secretaria.Equals | src/main/java/com/municipal/model/Secretaria.java:85-90 | equal exactly when the other unit is not null and has the same id and the same code (the identity case included) |
| Model.Secretaria.HashCode | src/main/java/com/municipal/model/Secretaria.java:93-95 | the hash is a Java `int`; with `Model.SecretariaEqualsContract`, equal units hash alike |
| Model.SecretariaEqualsContract | src/main/java/com/municipal/model/Secretaria.java:85-95 | `equals` is reflexive, symmetric and transitive, and equal units have equal hash codes |
| Model.SecretariaEqualsIgnoresOtherFields | src/main/java/com/municipal/model/Secretaria.java:85-95 | units with the same id and code are equal and hash alike, whatever their names and timestamps |
| Model.Servidor.Empty | src/main/java/com/municipal/model/Servidor.java:45-48 | a new employee has no business fields, and both timestamps are the clock reading |
| Model.Servidor.constructor | src/main/java/com/municipal/model/Servidor.java:50-56 | name, email, birth date and unit are stored as given; no id; both timestamps set |
| Model.Servidor.Hydrate | src/main/java/com/municipal/model/Servidor.java:18-42 | the object read from the store has the document's key as its id, the document's fields, and the unit the reference resolved to |
| Model.Servidor.GetIdade | src/main/java/com/municipal/model/Servidor.java:59-64 | 0 without a birth date, and never negative for a birth date already reached |
| Model.Servidor.GetIsIdadeValida | src/main/java/com/municipal/model/Servidor.java:67-70 | valid exactly when `getIdade()` lies in [18, 75], which needs a birth date |
| Model.Servidor.SetId | src/main/java/com/municipal/model/Servidor.java:77-79 | only `id` changes |
| Model.Servidor.SetNome | src/main/java/com/municipal/model/Servidor.java:85-88 | only `nome` and `updatedAt` change, `updatedAt` to the clock reading |
| Model.Servidor.SetEmail | src/main/java/com/municipal/model/Servidor.java:94-97 | only `email` and `updatedAt` change |
| Model.Servidor.SetDataNascimento | src/main/java/com/municipal/model/Servidor.java:103-106 | only `dataNascimento` and `updatedAt` change |
| Model.Servidor.SetSecretaria | src/main/java/com/municipal/model/Servidor.java:112-115 | only the unit reference and `updatedAt` change |
| Model.Servidor.SetCreatedAt | src/main/java/com/municipal/model/Servidor.java:121-123 | only `createdAt` changes |
| Model.Servidor.SetUpdatedAt | src/main/java/com/municipal/model/Servidor.java:129-131 | only `updatedAt` changes |
| Model.Servidor.Equals | src/main/java/com/municipal/model/Servidor.java:134-139 | equal exactly when the other employee is not null and has the same id and the same email (the identity case included) |
| Model.Servidor.HashCode | src/main/java/com/municipal/model/Servidor.java:142-144 | the hash is a Java `int`; with `Model.ServidorEqualsContract`, equal employees hash alike |
| Model.ServidorEqualsContract | src/main/java/com/municipal/model/Servidor.java:134-144 | `equals` is reflexive, symmetric and transitive, and equal employees have equal hash codes |
| Model.ServidorEqualsIgnoresOtherFields | src/main/java/com/municipal/model/Servidor.java:134-144 | employees with the same id and email are equal and hash alike, whatever their name, birth date and unit |
| Exceptions.NotFoundMessage | src/main/java/com/municipal/exception/ResourceNotFoundException.java:9-11 | the message starts with the resource name and ends with the value between single quotes |
| Validation.IdadeValidaValidator.constructor | src/main/java/com/municipal/validation/IdadeValidaValidator.java:11-12 | before `initialize`, both bounds are Java's default 0 |
| Validation.IdadeValidaValidator.Initialize | src/main/java/com/municipal/validation/IdadeValidaValidator.java:15-18 | the bounds become the annotation's `min` and `max` |
| Validation.IdadeValidaValidator.IsValid | src/main/java/com/municipal/validation/IdadeValidaValidator.java:21-37 | a null date is valid with no violation; otherwise valid exactly when min <= age <= max, and a failure records the message naming min, max and the age |
| Validation.ValidatorAgreesWithServidor | src/main/java/com/municipal/validation/IdadeValidaValidator.java:26-28 | with the default bounds (18, 75) and a birth date present, the validator and `Servidor.isIdadeValida` give the same answer |
| Validation.ValidatorDisagreesOnNull | src/main/java/com/municipal/validation/IdadeValidaValidator.java:22-24 | on a null date the validator accepts and `isIdadeValida` rejects |
| Validation.SizeWithinOfBmp | src/main/java/com/municipal/model/Secretaria.java:19 | for a string without supplementary characters, `@Size` bounds the number of characters |
| Validation.SecretariaFieldErrors | src/main/java/com/municipal/model/Secretaria.java:18-23 | at most one error per constraint, four in all, and every error names `nome` or `sigla` |
| Validation.SecretariaFieldErrorsSound | src/main/java/com/municipal/model/Secretaria.java:18-25 | a unit has no field errors exactly when its name is non-blank with 2-100 code units and its code is non-blank with 2-10 |
| Validation.ServidorErrorListAmong | src/main/java/com/municipal/model/Servidor.java:24-39 | whatever the outcome of each check, at most one error per constraint, eight in all, each naming `nome`, `email`, `dataNascimento` or `secretaria` |
| Validation.ValidBodyPassesBusinessAgeCheck | src/main/java/com/municipal/model/Servidor.java:24-39 | an employee body with no field errors has an email, a unit and an age that passes the service's own age rule |
| ExceptionHandler.FieldErrorMap | src/main/java/com/municipal/exception/GlobalExceptionHandler.java:31-36 | every entry of the map is the field and message of some error in the list |
| ExceptionHandler.FieldErrorMapKeys | src/main/java/com/municipal/exception/GlobalExceptionHandler.java:31-36 | the map has exactly one key per field that has an error |
| ExceptionHandler.FieldErrorMapLastWins | src/main/java/com/municipal/exception/GlobalExceptionHandler.java:31-36 | for a field with several errors, the map holds the message of the last one |
| ExceptionHandler.CollectFieldErrors | src/main/java/com/municipal/exception/GlobalExceptionHandler.java:31-36 | the loop of `put`s yields the field-error map |
| ExceptionHandler.Handle | src/main/java/com/municipal/exception/GlobalExceptionHandler.java:25-122 | status 404 exactly for NotFound, 500 exactly for unexpected errors, 400 for business, illegal-argument and validation errors; each kind's label; NotFound, business and illegal-argument messages pass through; the body's status equals the HTTP status |
| ExceptionHandler.HandleValidationExceptions | src/main/java/com/municipal/exception/GlobalExceptionHandler.java:26-46 | the response is 400 "Erro de validação" carrying the map the loop built |
| ExceptionHandler.UnexpectedErrorsLookAlike | src/main/java/com/municipal/exception/GlobalExceptionHandler.java:108-122 | the response to an unexpected error does not depend on the error, so nothing of its message leaks |
| Repository.SecretariaRepository.ExistsBySiglaIgnoreCase | src/main/java/com/municipal/repository/SecretariaRepository.java:21 | true exactly when some stored unit's code, upper-cased, equals the upper-cased argument; a null code is an illegal argument |
| Repository.SecretariaRepository.ExistsBySiglaIgnoreCaseAndIdNot | src/main/java/com/municipal/repository/SecretariaRepository.java:32 | the same, among units with a different id |
| Repository.SecretariaRepository.FindById | src/main/java/com/municipal/repository/SecretariaRepository.java:11 | a fresh unit holding the stored document exactly when the id is stored |
| Repository.SecretariaRepository.Save | src/main/java/com/municipal/model/Secretaria.java:24 | on success the entity's document is written under its id (a fresh one when it had none) and no other unit holds the same code; a write the (assumed) unique index rejects always fails; a failure changes nothing |
| Repository.SecretariaRepository.DeleteById | src/main/java/com/municipal/repository/SecretariaRepository.java:11 | exactly that id is removed |
| Repository.ServidorRepository.ExistsByEmailIgnoreCase | src/main/java/com/municipal/repository/ServidorRepository.java:23 | true exactly when some stored employee's email, upper-cased, equals the upper-cased argument; a null email is an illegal argument |
| Repository.ServidorRepository.ExistsByEmailIgnoreCaseAndIdNot | src/main/java/com/municipal/repository/ServidorRepository.java:28 | the same, among employees with a different id |
| Repository.ServidorRepository.CountBySecretaria | src/main/java/com/municipal/repository/ServidorRepository.java:49 | the count is 0 exactly when no stored employee references the unit |
| Repository.ServidorRepository.FindById | src/main/java/com/municipal/model/Servidor.java:38-39 | a fresh employee holding the stored fields; its unit is a fresh copy of the referenced unit when the reference resolves, and null otherwise |
| Repository.ServidorRepository.Save | src/main/java/com/municipal/repository/ServidorRepository.java:13 | on success the entity's document is written under its id (a fresh one when it had none); a failure changes nothing |
| Repository.ServidorRepository.DeleteById | src/main/java/com/municipal/repository/ServidorRepository.java:13 | exactly that id is removed |
| Service.InvalidAgeMessageInjective | src/main/java/com/municipal/service/ServidorService.java:134-136 | two invalid-age messages are equal only for the same age, so the message identifies the age |
| Service.PutPreservesUniqueSiglas | src/main/java/com/municipal/service/SecretariaService.java:126-128 | writing a unit whose code matches no other unit's, ignoring case, keeps all codes unique |
| Service.PutPreservesUniqueEmails | src/main/java/com/municipal/service/ServidorService.java:128-130 | writing an employee whose email matches no other employee's, ignoring case, keeps all emails unique |
| Service.NormalizedSiglaClashesAlike | src/main/java/com/municipal/service/SecretariaService.java:80-86 | the upper-cased code that update stores clashes with a stored code exactly when the submitted code does |
| Service.KeepingOwnSiglaPasses | src/main/java/com/municipal/service/SecretariaService.java:139-141 | with unique codes, updating a unit with its own code, in any case, passes the duplicate check |
| Service.KeepingOwnEmailPasses | src/main/java/com/municipal/service/ServidorService.java:154-156 | with unique emails, updating an employee with its own email, in any case, passes the duplicate check |
| Service.SecretariaService.FindById | src/main/java/com/municipal/service/SecretariaService.java:46-50 | the stored unit when the id is stored, and NotFound("Secretaria", "id", id) exactly when it is not |
| Service.SecretariaService.ValidateSecretariaForCreate | src/main/java/com/municipal/service/SecretariaService.java:121-129 | null fails with "Secretaria não pode ser nula"; a null code is an illegal argument; otherwise it passes exactly when no stored unit's code matches ignoring case, and fails with the duplicate-code message |
| Service.SecretariaService.ValidateSecretariaForUpdate | src/main/java/com/municipal/service/SecretariaService.java:134-142 | the same, comparing with the units of other ids only |
| Service.SecretariaService.Create | src/main/java/com/municipal/service/SecretariaService.java:55-69 | a failed validation is the result and nothing is saved; otherwise the only other failure is the duplicate-code message, with the store unchanged; on success the unit's document is written under its id; unique codes and resolving references are preserved |
| Service.SecretariaService.Update | src/main/java/com/municipal/service/SecretariaService.java:74-94 | NotFound comes before validation; on success the stored unit keeps its id and creation time, takes the submitted name and the upper-cased code, is stamped with `now`, and no other unit changes; failures leave the store unchanged; unique codes and resolving references are preserved |
| Service.SecretariaService.Delete | src/main/java/com/municipal/service/SecretariaService.java:99-116 | NotFound for an unknown id; while employees reference the unit, the business error naming its code and the count, with the unit kept; otherwise exactly that unit is removed; unique codes and resolving references are preserved |
| Service.ServidorService.FindById | src/main/java/com/municipal/service/ServidorService.java:46-50 | the stored employee, with its unit reference resolved, when the id is stored, and NotFound("Servidor", "id", id) exactly when it is not |
| Service.ServidorService.ValidateAgeAndUnit | src/main/java/com/municipal/service/ServidorService.java:133-142 | an age outside [18, 75] fails with the message naming the age; then a missing unit or unit id fails with "Secretaria é obrigatória"; otherwise it passes |
| Service.ServidorService.ValidateServidorForCreate | src/main/java/com/municipal/service/ServidorService.java:122-143 | the checks in order: null; a null email is an illegal argument; an email already stored, ignoring case, fails with the duplicate-email message; then the age and unit checks; passing implies an email, a valid age and a unit id |
| Service.ServidorService.ValidateServidorForUpdate | src/main/java/com/municipal/service/ServidorService.java:148-169 | the same, comparing emails with the employees of other ids only |
| Service.ServidorService.Create | src/main/java/com/municipal/service/ServidorService.java:55-73 | a failed validation is the result, with the store unchanged; an unknown unit id gives NotFound("Secretaria", "id", …) and stores nothing; a later failure is the duplicate-email message; on success the employee holds a fresh copy of the resolved unit and is written under its id; unique emails and resolving references are preserved |
| Service.ServidorService.Update | src/main/java/com/municipal/service/ServidorService.java:78-105 | NotFound comes before validation; a dangling stored unit reference gives an unexpected error; a changed unit id that is unknown gives NotFound; on success the employee keeps its id and creation time, takes the submitted name, email, birth date and unit id, and no other employee changes; the unit is the loaded one when the id is unchanged and the unit service's lookup otherwise |
| Service.ServidorService.ReplaceUnitIfChanged | src/main/java/com/municipal/service/ServidorService.java:85-88 | an unchanged unit id leaves the entity untouched; a changed one resolves the unit through the unit service (NotFound when unknown) and attaches a fresh copy, stamping `updatedAt` |
| Service.ServidorService.CopyAndSave | src/main/java/com/municipal/service/ServidorService.java:91-97 | name, email and birth date are copied over, the entity is stamped, and the store holds its document unless the save fails |
| Service.ServidorService.Delete | src/main/java/com/municipal/service/ServidorService.java:110-117 | NotFound for an unknown id; otherwise exactly that employee is removed; the invariants are preserved |

## Left out

- `findAll` of both services and both stores: it returns the whole collection in the store's order, which this model does not fix.
- The unused finders (`findBySiglaIgnoreCase`, `findByEmailIgnoreCase`, `findBySecretaria`, `findBySecretariaId`, `findByNomeContainingIgnoreCase`, `findByIdadeBetween`): no core operation calls them.
- Text.ToUpperCase: maps ASCII letters only. Java's locale-dependent upper-casing and Unicode case folding in `equalsIgnoreCase` are not modelled.
- Validation.ServidorFieldErrors: the `@Email` pattern is a parameter `isEmail`. Its regular expression belongs to Hibernate Validator, which is not part of this model.
- ExceptionHandler.Handle: for validation errors the body holds the field-error map itself. The model does not render it with `HashMap.toString`, because that output depends on hash order.
- Field errors that are not bound to a field raise a `ClassCastException` in the handler's loop. That case is not modelled: every error carries a field.
- Repository.SecretariaRepository.Save: assumes the unique index on `sigla` exists in the database. As the program stands, `@Indexed` only declares it: automatic index creation is off by default in Spring Data MongoDB 4, and no code creates the index. Without the index, a second unit with the same code, in the same case, is written anyway.
- Repository.SecretariaRepository.Save and Repository.ServidorRepository.Save: concurrency appears only as the `raced` flag. Transactions (`@Transactional`) and interleavings of requests are not modelled.
- `@DBRef` loading is eager here: a reference is resolved when the employee is read.
- Logging (SLF4J) has no effect on state and is left out.
- The controllers are left out: routing, `setId(id)` from the path, and the fixed 200/201/204 statuses.
- JSON serialisation, the `ErrorResponse` getters and setters, and `toString` are left out.
- Model.Secretaria.Empty and Model.Servidor.Empty: the two clock reads of a constructor are one `now`, so `createdAt` and `updatedAt` start equal.
- Service.SecretariaService.Update: `setSigla` and `setUpdatedAt` read the clock separately. Both readings are the one `now`.
- Model.Secretaria.constructor: the code parameter is a non-null string. The `NullPointerException` that `toUpperCase` raises on a null code is not modelled.
- Timestamps are never null in the model; `setCreatedAt(null)` and `setUpdatedAt(null)` are not modelled.
- Service.ServidorService.Update: the `NullPointerException` carries a fixed placeholder message. The handler never shows that message.
- `BusinessException.java` is not part of this model: only its message is used, as `Exceptions.ServiceError.Business`.
