/** TenantService: create, read, update and delete tenants.  Creating and
    updating resolve the referenced property first; each call is one
    transaction, so a call that fails leaves every table as it was. */
module TenantService {
  import opened Results
  import opened Entities
  import opened Dtos
  import opened Tables
  import opened Persistence

  /** convertToDto: the row's own fields, the property id it references and
      the current title of that property (None once that row is gone). */
  function TenantToDto(t: Tenant, properties: map<nat, Property>): (d: TenantDto)
    ensures d.id == t.id && d.name == t.name && d.email == t.email && d.phone == t.phone
    ensures d.propertyId == t.propertyId
    ensures d.propertyTitle.Some? <==> t.propertyId in properties
    ensures d.propertyTitle.Some? ==> d.propertyTitle.value == properties[t.propertyId].title
  {
    TenantDto(t.id, t.name, t.email, t.phone, t.propertyId,
              if t.propertyId in properties then Some(properties[t.propertyId].title) else None)
  }

  function TenantDtoId(d: TenantDto): nat { d.id }

  function ToDtoWith(properties: map<nat, Property>): Tenant -> TenantDto {
    (t: Tenant) => TenantToDto(t, properties)
  }

  lemma DtoIdRecoversKey(tenants: map<nat, Tenant>, properties: map<nat, Property>)
    requires TenantKeysAreIds(tenants)
    ensures KeyedBy(tenants, ToDtoWith(properties), TenantDtoId)
  {
  }

  /** The facts about the listing of a tenants table that the listing lemmas
      of Tables give once each DTO's id is its row's key. */
  lemma TenantListing(tenants: map<nat, Tenant>, properties: map<nat, Property>)
    requires TenantKeysAreIds(tenants)
    ensures var r := Listing(tenants, ToDtoWith(properties));
      && |r| == |tenants|
      && (forall i :: 0 <= i < |r| ==> r[i].id in tenants && r[i] == TenantToDto(tenants[r[i].id], properties))
      && (forall k :: k in tenants ==> exists i :: 0 <= i < |r| && r[i].id == k)
      && StrictlyAscending(r, TenantDtoId)
  {
    var f := ToDtoWith(properties);
    DtoIdRecoversKey(tenants, properties);
    ListingSize(tenants, f);
    ListingAt(tenants, f, TenantDtoId);
    ListingCovers(tenants, f, TenantDtoId);
    ListingAscending(tenants, f, TenantDtoId);
  }

  /** getAllTenants: one DTO per stored tenant, in ascending id order. */
  function GetAllTenants(tenants: map<nat, Tenant>, properties: map<nat, Property>): (r: seq<TenantDto>)
    requires TenantKeysAreIds(tenants)
    ensures |r| == |tenants|
    ensures forall i :: 0 <= i < |r| ==> r[i].id in tenants && r[i] == TenantToDto(tenants[r[i].id], properties)
    ensures forall k :: k in tenants ==> exists i :: 0 <= i < |r| && r[i].id == k
    ensures StrictlyAscending(r, TenantDtoId)
  {
    TenantListing(tenants, properties);
    Listing(tenants, ToDtoWith(properties))
  }

  /** The rows findByPropertyId selects. */
  function AtProperty(tenants: map<nat, Tenant>, propertyId: nat): (here: map<nat, Tenant>)
    ensures forall k :: k in here <==> k in tenants && tenants[k].propertyId == propertyId
    ensures forall k :: k in here ==> here[k] == tenants[k]
  {
    map k | k in tenants && tenants[k].propertyId == propertyId :: tenants[k]
  }

  /** getTenantsByProperty: exactly the stored tenants that reference
      `propertyId`, in ascending id order. */
  function GetTenantsByProperty(tenants: map<nat, Tenant>, properties: map<nat, Property>, propertyId: nat): (r: seq<TenantDto>)
    requires TenantKeysAreIds(tenants)
    ensures forall i :: 0 <= i < |r| ==>
      r[i].id in tenants && tenants[r[i].id].propertyId == propertyId && r[i] == TenantToDto(tenants[r[i].id], properties)
    ensures forall k :: k in tenants && tenants[k].propertyId == propertyId ==> exists i :: 0 <= i < |r| && r[i].id == k
    ensures StrictlyAscending(r, TenantDtoId)
  {
    GetAllTenants(AtProperty(tenants, propertyId), properties)
  }

  function HasProperty(propertyId: nat): TenantDto -> bool {
    (d: TenantDto) => d.propertyId == propertyId
  }

  lemma AtPropertyListedIsFiltered(tenants: map<nat, Tenant>, properties: map<nat, Property>, propertyId: nat, d: TenantDto)
    requires TenantKeysAreIds(tenants)
    requires d in GetTenantsByProperty(tenants, properties, propertyId)
    ensures d in Filter(GetAllTenants(tenants, properties), HasProperty(propertyId))
  {
    var here := GetTenantsByProperty(tenants, properties, propertyId);
    var i :| 0 <= i < |here| && here[i] == d;
    var all := GetAllTenants(tenants, properties);
    var j :| 0 <= j < |all| && all[j].id == d.id;
    assert all[j] == d;
    assert HasProperty(propertyId)(all[j]);
  }

  lemma FilteredIsAtPropertyListed(tenants: map<nat, Tenant>, properties: map<nat, Property>, propertyId: nat, d: TenantDto)
    requires TenantKeysAreIds(tenants)
    requires d in Filter(GetAllTenants(tenants, properties), HasProperty(propertyId))
    ensures d in GetTenantsByProperty(tenants, properties, propertyId)
  {
    var all := GetAllTenants(tenants, properties);
    var filtered := Filter(all, HasProperty(propertyId));
    var i :| 0 <= i < |filtered| && filtered[i] == d;
    assert d in all && HasProperty(propertyId)(d);
    var j :| 0 <= j < |all| && all[j] == d;
    assert tenants[d.id].propertyId == propertyId;
    var here := GetTenantsByProperty(tenants, properties, propertyId);
    var h :| 0 <= h < |here| && here[h].id == d.id;
    assert here[h] == d;
  }

  /** Asking the repository for one property's tenants gives the same list as
      filtering the list of all tenants by property. */
  lemma ByPropertyIsFilteredListing(tenants: map<nat, Tenant>, properties: map<nat, Property>, propertyId: nat)
    requires TenantKeysAreIds(tenants)
    ensures GetTenantsByProperty(tenants, properties, propertyId) == Filter(GetAllTenants(tenants, properties), HasProperty(propertyId))
  {
    var here := GetTenantsByProperty(tenants, properties, propertyId);
    var all := GetAllTenants(tenants, properties);
    var filtered := Filter(all, HasProperty(propertyId));
    FilterAscending(all, HasProperty(propertyId), TenantDtoId);
    forall d ensures d in here <==> d in filtered {
      if d in here { AtPropertyListedIsFiltered(tenants, properties, propertyId, d); }
      if d in filtered { FilteredIsAtPropertyListed(tenants, properties, propertyId, d); }
    }
    AscendingUnique(here, filtered, TenantDtoId);
  }

  /** getTenantById: not-found exactly when the id is absent. */
  function GetTenantById(tenants: map<nat, Tenant>, properties: map<nat, Property>, id: nat): (r: Result<TenantDto>)
    requires TenantKeysAreIds(tenants)
    ensures r.Failure? <==> id !in tenants
    ensures r.Failure? ==> r.error == NotFound(TenantEntity, id)
    ensures r.Success? ==> r.value.id == id && r.value == TenantToDto(tenants[id], properties)
  {
    if id in tenants then Success(TenantToDto(tenants[id], properties))
    else Failure(NotFound(TenantEntity, id))
  }

  /** createTenant: the property named by the DTO must exist; the new row
      takes name, email and phone from the DTO, references that property and
      gets a fresh id. */
  method CreateTenant(db: Store, dto: TenantDto) returns (r: Result<TenantDto>)
    requires db.Valid()
    modifies db`tenants, db`nextTenantId
    ensures db.Valid()
    ensures r.Failure? <==> dto.propertyId !in db.properties
    ensures r.Failure? ==> r.error == NotFound(PropertyEntity, dto.propertyId)
    ensures r.Failure? ==> db.tenants == old(db.tenants) && db.nextTenantId == old(db.nextTenantId)
    ensures r.Success? ==>
      var id := r.value.id;
      && id !in old(db.tenants)
      && id == old(db.nextTenantId) && db.nextTenantId == id + 1
      && db.tenants == old(db.tenants)[id := Tenant(id, dto.name, dto.email, dto.phone, dto.propertyId)]
      && r.value == TenantToDto(db.tenants[id], db.properties)
    ensures r.Success? ==>
      r.value.propertyId == dto.propertyId && r.value.propertyTitle == Some(db.properties[dto.propertyId].title)
    ensures TenantsReferToProperties(old(db.tenants), db.properties) ==> TenantsReferToProperties(db.tenants, db.properties)
  {
    if dto.propertyId !in db.properties {
      return Failure(NotFound(PropertyEntity, dto.propertyId));
    }
    var property := db.properties[dto.propertyId];
    var id := db.nextTenantId;
    var saved := Tenant(id, dto.name, dto.email, dto.phone, property.id);
    db.tenants := db.tenants[id := saved];
    db.nextTenantId := id + 1;
    r := Success(TenantToDto(saved, db.properties));
  }

  /** updateTenant: the tenant id is checked first, then the new property id;
      on success name, email, phone and the property reference are
      overwritten, the id is kept and every other row stays. */
  method UpdateTenant(db: Store, id: nat, dto: TenantDto) returns (r: Result<TenantDto>)
    requires db.Valid()
    modifies db`tenants
    ensures db.Valid()
    ensures id !in old(db.tenants) ==> r == Failure(NotFound(TenantEntity, id))
    ensures id in old(db.tenants) && dto.propertyId !in db.properties ==> r == Failure(NotFound(PropertyEntity, dto.propertyId))
    ensures r.Success? <==> id in old(db.tenants) && dto.propertyId in db.properties
    ensures r.Failure? ==> db.tenants == old(db.tenants)
    ensures r.Success? ==>
      && db.tenants == old(db.tenants)[id := Tenant(id, dto.name, dto.email, dto.phone, dto.propertyId)]
      && r.value == TenantToDto(db.tenants[id], db.properties)
    ensures TenantsReferToProperties(old(db.tenants), db.properties) ==> TenantsReferToProperties(db.tenants, db.properties)
  {
    if id !in db.tenants {
      return Failure(NotFound(TenantEntity, id));
    }
    var tenant := db.tenants[id];
    if dto.propertyId !in db.properties {
      return Failure(NotFound(PropertyEntity, dto.propertyId));
    }
    var property := db.properties[dto.propertyId];
    tenant := tenant.(name := dto.name, email := dto.email, phone := dto.phone, propertyId := property.id);
    db.tenants := db.tenants[id := tenant];
    r := Success(TenantToDto(tenant, db.properties));
  }

  /** deleteTenant: removes exactly that row. */
  method DeleteTenant(db: Store, id: nat) returns (r: Result<()>)
    requires db.Valid()
    modifies db`tenants
    ensures db.Valid()
    ensures r.Failure? <==> id !in old(db.tenants)
    ensures r.Failure? ==> r.error == NotFound(TenantEntity, id) && db.tenants == old(db.tenants)
    ensures r.Success? ==> db.tenants == old(db.tenants) - {id}
    ensures TenantsReferToProperties(old(db.tenants), db.properties) ==> TenantsReferToProperties(db.tenants, db.properties)
  {
    if id !in db.tenants {
      return Failure(NotFound(TenantEntity, id));
    }
    db.tenants := db.tenants - {id};
    r := Success(());
  }
}
