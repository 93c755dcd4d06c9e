/** PropertyService: create, read, update and delete properties.  Each call is
    one transaction, so a call that fails leaves every table as it was. */
module PropertyService {
  import opened Results
  import opened Entities
  import opened Dtos
  import opened Tables
  import opened Persistence

  /** convertToDto: the row's own fields, and the owner's id and name. */
  function PropertyToDto(p: Property): (d: PropertyDto)
    ensures d.id == p.id && d.title == p.title && d.address == p.address && d.rentAmount == p.rentAmount
    ensures d.ownerId == p.owner.id && d.ownerName == p.owner.name
  {
    PropertyDto(p.id, p.title, p.address, p.rentAmount, p.owner.id, p.owner.name)
  }

  function DtoId(d: PropertyDto): nat { d.id }

  lemma DtoIdRecoversKey(properties: map<nat, Property>)
    requires PropertyKeysAreIds(properties)
    ensures KeyedBy(properties, PropertyToDto, DtoId)
  {
  }

  /** The facts about the listing of a properties table that the listing
      lemmas of Tables give once each DTO's id is its row's key. */
  lemma PropertyListing(properties: map<nat, Property>)
    requires PropertyKeysAreIds(properties)
    ensures var r := Listing(properties, PropertyToDto);
      && |r| == |properties|
      && (forall i :: 0 <= i < |r| ==> r[i].id in properties && r[i] == PropertyToDto(properties[r[i].id]))
      && (forall k :: k in properties ==> exists i :: 0 <= i < |r| && r[i].id == k)
      && StrictlyAscending(r, DtoId)
  {
    DtoIdRecoversKey(properties);
    ListingSize(properties, PropertyToDto);
    ListingAt(properties, PropertyToDto, DtoId);
    ListingCovers(properties, PropertyToDto, DtoId);
    ListingAscending(properties, PropertyToDto, DtoId);
  }

  /** getAllProperties: one DTO per stored property, in ascending id order. */
  function GetAllProperties(properties: map<nat, Property>): (r: seq<PropertyDto>)
    requires PropertyKeysAreIds(properties)
    ensures |r| == |properties|
    ensures forall i :: 0 <= i < |r| ==> r[i].id in properties && r[i] == PropertyToDto(properties[r[i].id])
    ensures forall k :: k in properties ==> exists i :: 0 <= i < |r| && r[i].id == k
    ensures StrictlyAscending(r, DtoId)
  {
    PropertyListing(properties);
    Listing(properties, PropertyToDto)
  }

  /** The rows findByOwnerId selects. */
  function OwnedBy(properties: map<nat, Property>, ownerId: nat): (mine: map<nat, Property>)
    ensures forall k :: k in mine <==> k in properties && properties[k].owner.id == ownerId
    ensures forall k :: k in mine ==> mine[k] == properties[k]
  {
    map k | k in properties && properties[k].owner.id == ownerId :: properties[k]
  }

  /** getPropertiesByOwner: exactly the stored properties whose owner has
      `ownerId`, in ascending id order. */
  function GetPropertiesByOwner(properties: map<nat, Property>, ownerId: nat): (r: seq<PropertyDto>)
    requires PropertyKeysAreIds(properties)
    ensures forall i :: 0 <= i < |r| ==>
      r[i].id in properties && properties[r[i].id].owner.id == ownerId && r[i] == PropertyToDto(properties[r[i].id])
    ensures forall k :: k in properties && properties[k].owner.id == ownerId ==> exists i :: 0 <= i < |r| && r[i].id == k
    ensures StrictlyAscending(r, DtoId)
  {
    GetAllProperties(OwnedBy(properties, ownerId))
  }

  function HasOwner(ownerId: nat): PropertyDto -> bool {
    (d: PropertyDto) => d.ownerId == ownerId
  }

  lemma OwnedListedIsFiltered(properties: map<nat, Property>, ownerId: nat, d: PropertyDto)
    requires PropertyKeysAreIds(properties)
    requires d in GetPropertiesByOwner(properties, ownerId)
    ensures d in Filter(GetAllProperties(properties), HasOwner(ownerId))
  {
    var mine := GetPropertiesByOwner(properties, ownerId);
    var i :| 0 <= i < |mine| && mine[i] == d;
    var all := GetAllProperties(properties);
    assert d in all;
    var j :| 0 <= j < |all| && all[j] == d;
    assert HasOwner(ownerId)(all[j]);
  }

  lemma FilteredIsOwnedListed(properties: map<nat, Property>, ownerId: nat, d: PropertyDto)
    requires PropertyKeysAreIds(properties)
    requires d in Filter(GetAllProperties(properties), HasOwner(ownerId))
    ensures d in GetPropertiesByOwner(properties, ownerId)
  {
    var all := GetAllProperties(properties);
    var filtered := Filter(all, HasOwner(ownerId));
    var i :| 0 <= i < |filtered| && filtered[i] == d;
    assert d in all && HasOwner(ownerId)(d);
    var j :| 0 <= j < |all| && all[j] == d;
    assert properties[d.id].owner.id == ownerId;
  }

  /** Asking the repository for one owner's properties gives the same list as
      filtering the list of all properties by owner, whatever the order in
      which the owners created them. */
  lemma ByOwnerIsFilteredListing(properties: map<nat, Property>, ownerId: nat)
    requires PropertyKeysAreIds(properties)
    ensures GetPropertiesByOwner(properties, ownerId) == Filter(GetAllProperties(properties), HasOwner(ownerId))
  {
    var mine := GetPropertiesByOwner(properties, ownerId);
    var all := GetAllProperties(properties);
    var filtered := Filter(all, HasOwner(ownerId));
    FilterAscending(all, HasOwner(ownerId), DtoId);
    forall d ensures d in mine <==> d in filtered {
      if d in mine { OwnedListedIsFiltered(properties, ownerId, d); }
      if d in filtered { FilteredIsOwnedListed(properties, ownerId, d); }
    }
    AscendingUnique(mine, filtered, DtoId);
  }

  /** getPropertyById: not-found exactly when the id is absent. */
  function GetPropertyById(properties: map<nat, Property>, id: nat): (r: Result<PropertyDto>)
    requires PropertyKeysAreIds(properties)
    ensures r.Failure? <==> id !in properties
    ensures r.Failure? ==> r.error == NotFound(PropertyEntity, id)
    ensures r.Success? ==> r.value.id == id && r.value == PropertyToDto(properties[id])
  {
    if id in properties then Success(PropertyToDto(properties[id]))
    else Failure(NotFound(PropertyEntity, id))
  }

  /** createProperty: the owner is looked up first; the new row takes title,
      address and rent from the DTO and its owner from `ownerId` (the DTO's
      ownerId is ignored), passes validation on save, and gets a fresh id. */
  method CreateProperty(db: Store, dto: PropertyDto, ownerId: nat) returns (r: Result<PropertyDto>)
    requires db.Valid()
    modifies db`properties, db`nextPropertyId
    ensures db.Valid()
    ensures ownerId !in db.users ==> r == Failure(NotFound(UserEntity, ownerId))
    ensures ownerId in db.users && !ValidFields(dto.title, dto.address, dto.rentAmount) ==>
      r == Failure(ValidationFailed(Violations(dto.title, dto.address, dto.rentAmount)))
    ensures r.Success? <==> ownerId in db.users && ValidFields(dto.title, dto.address, dto.rentAmount)
    ensures r.Failure? ==> db.properties == old(db.properties) && db.nextPropertyId == old(db.nextPropertyId)
    ensures r.Success? ==>
      var id := r.value.id;
      && id !in old(db.properties)
      && id == old(db.nextPropertyId) && db.nextPropertyId == id + 1
      && db.properties == old(db.properties)[id := Property(id, dto.title, dto.address, dto.rentAmount, db.users[ownerId])]
      && r.value == PropertyToDto(db.properties[id])
    ensures TenantsReferToProperties(db.tenants, old(db.properties)) ==> TenantsReferToProperties(db.tenants, db.properties)
  {
    if ownerId !in db.users {
      return Failure(NotFound(UserEntity, ownerId));
    }
    var owner := db.users[ownerId];
    var violations := Violations(dto.title, dto.address, dto.rentAmount);
    if violations != {} {
      return Failure(ValidationFailed(violations));
    }
    var id := db.nextPropertyId;
    var saved := Property(id, dto.title, dto.address, dto.rentAmount, owner);
    db.properties := db.properties[id := saved];
    db.nextPropertyId := id + 1;
    r := Success(PropertyToDto(saved));
  }

  /** updateProperty: overwrites title, address and rent of an existing row;
      its id and owner stay, and so does every other row. */
  method UpdateProperty(db: Store, id: nat, dto: PropertyDto) returns (r: Result<PropertyDto>)
    requires db.Valid()
    modifies db`properties
    ensures db.Valid()
    ensures id !in old(db.properties) ==> r == Failure(NotFound(PropertyEntity, id))
    ensures id in old(db.properties) && !ValidFields(dto.title, dto.address, dto.rentAmount) ==>
      r == Failure(ValidationFailed(Violations(dto.title, dto.address, dto.rentAmount)))
    ensures r.Success? <==> id in old(db.properties) && ValidFields(dto.title, dto.address, dto.rentAmount)
    ensures r.Failure? ==> db.properties == old(db.properties)
    ensures r.Success? ==>
      var before := old(db.properties)[id];
      && db.properties == old(db.properties)[id := Property(id, dto.title, dto.address, dto.rentAmount, before.owner)]
      && r.value == PropertyToDto(db.properties[id])
    ensures db.properties.Keys == old(db.properties).Keys
  {
    if id !in db.properties {
      return Failure(NotFound(PropertyEntity, id));
    }
    var property := db.properties[id];
    property := property.(title := dto.title, address := dto.address, rentAmount := dto.rentAmount);
    var violations := Violations(property.title, property.address, property.rentAmount);
    if violations != {} {
      return Failure(ValidationFailed(violations));
    }
    db.properties := db.properties[id := property];
    r := Success(PropertyToDto(property));
  }

  /** deleteProperty: removes exactly that row.  Tenants are neither checked
      nor touched, so a tenant of the deleted property is left dangling. */
  method DeleteProperty(db: Store, id: nat) returns (r: Result<()>)
    requires db.Valid()
    modifies db`properties
    ensures db.Valid()
    ensures r.Failure? <==> id !in old(db.properties)
    ensures r.Failure? ==> r.error == NotFound(PropertyEntity, id) && db.properties == old(db.properties)
    ensures r.Success? ==> db.properties == old(db.properties) - {id}
  {
    if id !in db.properties {
      return Failure(NotFound(PropertyEntity, id));
    }
    db.properties := db.properties - {id};
    r := Success(());
  }
}
