# RentEase service layer in Dafny

RentEase is a property-rental backend. Owners hold properties in it, and each
property has tenants. This project models its service layer:

- PropertyService: create, read, update and delete properties, and list them
  by owner.
- TenantService: create, read, update and delete tenants, and list them by
  property.
- AuthService: register an owner and log in.
- The Property entity: its fields and the validation constraints they carry.

The model has three tables: users, properties and tenants. Each is a
`map<nat, Record>` from a generated id to the row. The tables live in one
`Persistence.Store` object together with an identity counter per table, so a
newly saved row gets an id that no row has had before.

- **State-changing calls** are methods on a `Store`, one module per service:
  `Register`, `CreateProperty`, `UpdateProperty`, `DeleteProperty`,
  `CreateTenant`, `UpdateTenant` and `DeleteTenant`.
  - Each `modifies` only the table it writes (for example
    ``db`properties, db`nextPropertyId``). The other tables are therefore
    provably untouched.
  - Both services are `@Transactional`, so a failing call states that its
    table is exactly as before.
- **Reads** are functions over the maps: the listings, the lookups by id,
  `convertToDto` and login.
- **Errors.** Every exception the services throw becomes a `Result.Failure`
  with an `Error` value. `NotFound` carries the table and the id;
  `AlreadyExists` carries the email.

Modules:

- `Results`: Option, Result and the errors.
- `Entities`: the User, Property and Tenant rows, and the Property
  constraints.
- `Dtos`: PropertyDto, TenantDto and AuthResponse.
- `Tables`: the ascending-id listing of a table, and filtering.
- `Persistence`: the table invariants, existsByEmail and findByEmail, and the
  `Store` class.
- `PropertyService`, `TenantService` and `AuthService`: the services.
- `Scenarios`: call sequences whose outcome follows from the services'
  contracts alone.

`Store.Valid()` is the invariant every service method keeps:

- every key is below its table's counter, and is the row's own id;
- emails are unique;
- every stored property satisfies the Property constraints;
- every property's owner is a stored user.

Tenant referential integrity (each tenant's property exists) is separate and
is not part of `Valid()`:

- create and update of tenants, and create of properties, preserve it;
- deleting a property can break it.

`Scenarios.DeleteReferencedProperty` shows the second point.

The password encoder, the token generator and the authentication manager are
not modelled. They enter as functions in the `AuthService.Security` value:
`encode`, `generateToken(email, id)`, and `authenticate(email, password)`,
which gives the outcome of the credential check.

## Model

All source paths are under `backend/src/main/java/com/rentease/`.

| member | source | states |
|---|---|---|
| Entities.NotBlankIsNonEmptyTrim | backend/src/main/java/com/rentease/entity/Property.java:22-28 | `NotBlank` (some character above U+0020) holds exactly when the text is non-empty after String.trim, which `Trim` models by stripping characters up to U+0020 from both ends |
| Entities.ValidFields | backend/src/main/java/com/rentease/entity/Property.java:22-33 | title and address are not blank, and the rent is present (@NotNull) and strictly above 0 (@DecimalMin, inclusive = false); the fields are valid exactly when Bean Validation reports no violation |
| Entities.Violations | backend/src/main/java/com/rentease/entity/Property.java:22-33 | each constraint message is reported exactly when its constraint fails: blank title, blank address, missing rent, rent not above 0 (0 itself fails); no other message appears |
| Persistence.ExistsByEmail | backend/src/main/java/com/rentease/service/AuthService.java:33 | true exactly when the email is among the stored users' emails, compared exactly |
| Persistence.FindByEmail | backend/src/main/java/com/rentease/service/AuthService.java:56-57 | finds a user exactly when one with that email is stored; the user found is the stored row with that email |
| Persistence.Store.Valid | backend/src/main/java/com/rentease/entity/Property.java:18-37 | the invariant of persisted rows: every stored property satisfies the Property constraints and its owner (never null) is a stored user; it also covers keys being ids below the identity counters and unique emails |
| Persistence.Store.constructor | backend/src/main/java/com/rentease/entity/Property.java:18-20 | empty tables satisfying the store invariant, with identity counters ready to hand out fresh ids |
| PropertyService.PropertyToDto | backend/src/main/java/com/rentease/service/PropertyService.java:77-86 | the DTO carries the row's id, title, address and rent, and its owner's id and name |
| PropertyService.GetAllProperties | backend/src/main/java/com/rentease/service/PropertyService.java:40-44 | one entry per stored property; each entry is the DTO of the row with its id; every stored id is listed; ids strictly ascend, so none repeats |
| PropertyService.OwnedBy | backend/src/main/java/com/rentease/service/PropertyService.java:47 | the rows findByOwnerId selects: a key is selected exactly when it is stored with that owner id, and the selected rows are the stored rows |
| PropertyService.GetPropertiesByOwner | backend/src/main/java/com/rentease/service/PropertyService.java:46-50 | every entry is the DTO of a stored property of that owner; every stored property of that owner is listed; ids strictly ascend |
| PropertyService.ByOwnerIsFilteredListing | backend/src/main/java/com/rentease/service/PropertyService.java:40-50 | the by-owner listing equals the full listing filtered on ownerId, regardless of how owners' creations interleave |
| PropertyService.GetPropertyById | backend/src/main/java/com/rentease/service/PropertyService.java:52-56 | not-found (property, id) exactly when the id is absent; otherwise the DTO of that row |
| PropertyService.CreateProperty | backend/src/main/java/com/rentease/service/PropertyService.java:26-38 | missing owner: not-found (user, ownerId); invalid fields: the set of violated constraints; succeeds exactly when neither happens; on failure nothing changes; on success exactly one row is added under the next identity value, which is then advanced, with the DTO's title, address and rent and the looked-up owner (the DTO's ownerId is ignored); the answer is that row's DTO; the invariant and tenant integrity are kept |
| PropertyService.UpdateProperty | backend/src/main/java/com/rentease/service/PropertyService.java:58-68 | absent id: not-found and nothing changes; invalid fields: the violations and nothing changes; otherwise only that row changes, getting the new title, address and rent while keeping its id and owner; the set of ids is unchanged |
| PropertyService.DeleteProperty | backend/src/main/java/com/rentease/service/PropertyService.java:70-75 | not-found exactly when the id is absent, with nothing changed; otherwise exactly that key is removed, and tenants are not touched |
| TenantService.TenantToDto | backend/src/main/java/com/rentease/service/TenantService.java:81-90 | the DTO carries the tenant's id, name, email and phone and its property id; it has a title exactly when that property is stored, and then it is that property's current title |
| TenantService.GetAllTenants | backend/src/main/java/com/rentease/service/TenantService.java:40-44 | one entry per stored tenant; each entry is the DTO of the row with its id; every stored id is listed; ids strictly ascend |
| TenantService.AtProperty | backend/src/main/java/com/rentease/service/TenantService.java:47 | the rows findByPropertyId selects: a key is selected exactly when it is stored with that property id, and the selected rows are the stored rows |
| TenantService.GetTenantsByProperty | backend/src/main/java/com/rentease/service/TenantService.java:46-50 | every entry is the DTO of a stored tenant of that property; every stored tenant of that property is listed; ids strictly ascend |
| TenantService.ByPropertyIsFilteredListing | backend/src/main/java/com/rentease/service/TenantService.java:40-50 | the by-property listing equals the full listing filtered on propertyId |
| TenantService.GetTenantById | backend/src/main/java/com/rentease/service/TenantService.java:52-56 | not-found (tenant, id) exactly when the id is absent; otherwise the DTO of that row |
| TenantService.CreateTenant | backend/src/main/java/com/rentease/service/TenantService.java:26-38 | not-found (property, propertyId) exactly when the property is absent, with no tenant added; otherwise exactly one tenant is added under the next identity value, which is then advanced, with the DTO's name, email and phone, bound to that property; the answer has the requested propertyId and that property's title; tenant integrity is kept |
| TenantService.UpdateTenant | backend/src/main/java/com/rentease/service/TenantService.java:58-72 | the tenant id is checked before the property id, and either failure is not-found with the table unchanged; it succeeds exactly when both exist; then only that row changes, to the new name, email, phone and property with the same id; tenant integrity is kept |
| TenantService.DeleteTenant | backend/src/main/java/com/rentease/service/TenantService.java:74-79 | not-found exactly when the id is absent, with nothing changed; otherwise exactly that key is removed |
| AuthService.Register | backend/src/main/java/com/rentease/service/AuthService.java:32-49 | already-exists exactly when the email is taken, with nothing changed; otherwise exactly one OWNER user is added under the next identity value, which is then advanced, with that name and email and the encoded password; the answer is the token for the saved email and id, "User registered successfully", and the saved id, name and email; afterwards the email exists |
| AuthService.Login | backend/src/main/java/com/rentease/service/AuthService.java:51-63 | a failed credential check fails first, before any lookup or token; authenticated with an unknown email: "User not found"; succeeds exactly when authenticated and the email is stored, answering with the token, "Login successful", and the id, name and email of the user with that email; it writes nothing |
| AuthService.LoginAnswersForTheEmailsOwner | backend/src/main/java/com/rentease/service/AuthService.java:56-62 | with unique emails, a login for a stored user's email answers with that user's id |
| Scenarios.RegisterTwice | backend/src/main/java/com/rentease/service/AuthService.java:32-63 | a second registration with the same email fails and adds nothing; the table grows by one user; that user can log in and gets its own id |
| Scenarios.PropertyRoundTrip | backend/src/main/java/com/rentease/service/PropertyService.java:26-56 | a property created for a stored owner reads back by id exactly as created, with the owner's name resolved |
| Scenarios.ZeroRentThenDelete | backend/src/main/java/com/rentease/service/PropertyService.java:58-75 | an update to rent 0 fails with the "greater than 0" violation; the delete then succeeds, and a read by that id is not-found |
| Scenarios.TenantSeesRenamedProperty | backend/src/main/java/com/rentease/service/TenantService.java:81-90 | after its property is renamed, a tenant's DTO shows the new title |
| Scenarios.IdsAreNotReused | backend/src/main/java/com/rentease/entity/Property.java:18-20 | create, delete, create: the second property gets a different id from the deleted one |
| Scenarios.DeleteReferencedProperty | backend/src/main/java/com/rentease/service/PropertyService.java:70-75 | deleting a property a tenant references succeeds, breaks tenant referential integrity, and leaves that tenant's DTO without a title |

## Left out

- Controllers and HTTP routing are not part of this model. This includes
  extracting the user id from the `Authorization` header
  (`controller/PropertyController.java:26-30`). `CreateProperty` takes the
  owner id as a parameter.
- Bean Validation on the request body (`@Valid` on the DTO in the
  controller) runs before the service. The model validates the entity on
  save instead, and does so after the owner lookup, as the service orders its
  steps. So a request with both a missing owner and invalid fields reports
  not-found here.
- The User and Tenant entities, their repositories and their constraints are
  not part of this model. Users are rows of name, email, encoded password and
  role. Role has only `OWNER`, the only value this core assigns.
- JWT signing, expiry and verification are not modelled. Neither are the
  password hash and the authentication manager's own user lookup. They are
  functions in `Security`, so they are deterministic. The program's are not:
  the encoder salts each call, and a token depends on its issue and expiry
  times. Two consequences of the model are therefore not true of the
  program. Equal passwords do not give equal stored hashes, and two logins
  do not return the same token.
- AuthService.Register: "the stored password is never the plaintext" is not
  stated. With an abstract `encode`, the model can only say that the stored
  password is `encode(password)`.
- AuthService.Login: `authenticate` is an independent input and is not tied
  to the users table. A credential check that passes for an unknown email
  therefore leads to the "User not found" failure, as in the code.
- Exception message texts are not modelled. Errors carry the table and the
  id, or the email. Only the Property constraint messages and the two
  response messages are kept as strings.
- Null is modelled only for `rentAmount` (`Option<real>`). Title, address,
  names and ids are never null in the model.
- `rentAmount` is a Java `Double`; the model uses `real`, so NaN, infinities
  and rounding are not modelled. Ids are unbounded `nat`s, not 64-bit
  `Long`s.
- The order in which `findAll`, `findByOwnerId` and `findByPropertyId` return
  rows is not fixed by the code. The model fixes it as ascending id.
- Transactions, lazy loading, database foreign keys and concurrency are not
  modelled. Atomicity is modelled as "a failing call leaves its table as it
  was". Deleting a property is not blocked and does not cascade. A tenant of
  a deleted property then has no title in its DTO, where the database would
  refuse the delete or the lazy load would fail.
- Email comparison is exact string equality, as the code compares emails. A
  case-insensitive policy would be a design choice that the code does not
  make.
- Login distinguishes a failed credential check from a missing user ("User
  not found" after a successful check), as the code does. It does not make
  the two cases indistinguishable, as a no-enumeration design would.
