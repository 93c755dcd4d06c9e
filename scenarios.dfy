/** Clients of the services: call sequences whose outcome follows from the
    services' contracts alone. */
module Scenarios {
  import opened Results
  import opened Entities
  import opened Dtos
  import opened Persistence
  import opened PropertyService
  import opened TenantService
  import opened AuthService

  /** Registering the same email twice: the first call stores one user, the
      second is refused and stores nothing, and the first user can log in. */
  method RegisterTwice(db: Store, security: Security, name: string, email: string, password: string,
                       otherName: string, otherPassword: string)
    returns (first: Result<AuthResponse>, second: Result<AuthResponse>)
    requires db.Valid() && !ExistsByEmail(db.users, email)
    requires security.authenticate(email, password)
    modifies db`users, db`nextUserId
    ensures db.Valid()
    ensures first.Success? && first.value.email == email && first.value.name == name
    ensures second == Failure(AlreadyExists(email))
    ensures |db.users| == |old(db.users)| + 1
    ensures Login(db.users, security, email, password).Success?
    ensures Login(db.users, security, email, password).value.userId == first.value.userId
  {
    first := Register(db, security, name, email, password);
    second := Register(db, security, otherName, email, otherPassword);
    LoginAnswersForTheEmailsOwner(db.users, security, email, password, first.value.userId);
  }

  /** Create a property and read it back: the same fields, and the owner's
      name resolved from the owner id. */
  method PropertyRoundTrip(db: Store, ownerId: nat) returns (created: Result<PropertyDto>, fetched: Result<PropertyDto>)
    requires db.Valid() && ownerId in db.users
    modifies db`properties, db`nextPropertyId
    ensures db.Valid()
    ensures created.Success?
    ensures created.value.title == "Flat A" && created.value.address == "1 Main St"
    ensures created.value.rentAmount == Some(500.0)
    ensures created.value.ownerId == ownerId && created.value.ownerName == db.users[ownerId].name
    ensures fetched == created
  {
    var dto := PropertyDto(0, "Flat A", "1 Main St", Some(500.0), 0, "");
    assert dto.title[0] > ' ' && dto.address[0] > ' ';
    created := CreateProperty(db, dto, ownerId);
    fetched := GetPropertyById(db.properties, created.value.id);
  }

  /** Updating a stored property to a zero rent is refused and changes
      nothing; after deleting it, reading it is not-found. */
  method ZeroRentThenDelete(db: Store, id: nat)
    returns (zeroRent: Result<PropertyDto>, deleted: Result<()>, refetched: Result<PropertyDto>)
    requires db.Valid() && id in db.properties
    modifies db`properties
    ensures db.Valid()
    ensures zeroRent.Failure? && zeroRent.error.ValidationFailed? && RentPositive in zeroRent.error.violations
    ensures deleted.Success?
    ensures refetched == Failure(NotFound(PropertyEntity, id))
    ensures db.properties == old(db.properties) - {id}
  {
    var dto := PropertyToDto(db.properties[id]);
    zeroRent := UpdateProperty(db, id, dto.(rentAmount := Some(0.0)));
    deleted := DeleteProperty(db, id);
    refetched := GetPropertyById(db.properties, id);
  }

  /** A tenant reads its property's current title: after the property is
      renamed, the tenant's DTO shows the new title. */
  method TenantSeesRenamedProperty(db: Store, tenantId: nat, title: string)
    returns (renamed: Result<PropertyDto>, tenant: Result<TenantDto>)
    requires db.Valid() && tenantId in db.tenants && db.tenants[tenantId].propertyId in db.properties
    requires NotBlank(title)
    modifies db`properties
    ensures db.Valid()
    ensures renamed.Success?
    ensures tenant.Success? && tenant.value.propertyTitle == Some(title)
  {
    var propertyId := db.tenants[tenantId].propertyId;
    var current := PropertyToDto(db.properties[propertyId]);
    renamed := UpdateProperty(db, propertyId, current.(title := title));
    tenant := GetTenantById(db.tenants, db.properties, tenantId);
  }

  /** Creating, deleting and creating again never hands out the deleted id
      a second time. */
  method IdsAreNotReused(db: Store, ownerId: nat, dto: PropertyDto)
    returns (first: Result<PropertyDto>, deleted: Result<()>, second: Result<PropertyDto>)
    requires db.Valid() && ownerId in db.users && ValidFields(dto.title, dto.address, dto.rentAmount)
    modifies db`properties, db`nextPropertyId
    ensures db.Valid()
    ensures first.Success? && deleted.Success? && second.Success?
    ensures second.value.id != first.value.id
    ensures first.value.id !in db.properties && second.value.id in db.properties
  {
    first := CreateProperty(db, dto, ownerId);
    deleted := DeleteProperty(db, first.value.id);
    second := CreateProperty(db, dto, ownerId);
  }

  /** Deleting a property that a tenant still references succeeds: the
      delete neither refuses nor cascades, so that tenant is left without a
      stored property. */
  method DeleteReferencedProperty(db: Store, t: nat) returns (r: Result<()>)
    requires db.Valid() && t in db.tenants && db.tenants[t].propertyId in db.properties
    modifies db`properties
    ensures db.Valid()
    ensures r.Success? && !TenantsReferToProperties(db.tenants, db.properties)
    ensures t in db.tenants && GetTenantById(db.tenants, db.properties, t).value.propertyTitle == None
  {
    r := DeleteProperty(db, db.tenants[t].propertyId);
  }
}
