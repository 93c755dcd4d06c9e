/** The three tables behind the repositories, and the queries the services
    run against them.  Each table maps a generated id to its row; a counter
    per table plays the identity column, so an inserted row gets an id that
    no row has had before. */
module Persistence {
  import opened Results
  import opened Entities
  import opened Tables

  predicate UserKeysAreIds(users: map<nat, User>) {
    forall k :: k in users ==> users[k].id == k
  }

  predicate PropertyKeysAreIds(properties: map<nat, Property>) {
    forall k :: k in properties ==> properties[k].id == k
  }

  predicate TenantKeysAreIds(tenants: map<nat, Tenant>) {
    forall k :: k in tenants ==> tenants[k].id == k
  }

  /** No two users share an email (compared exactly, without case folding). */
  predicate UniqueEmails(users: map<nat, User>) {
    forall j, k :: j in users && k in users && users[j].email == users[k].email ==> j == k
  }

  /** Every stored property passes the Property entity's constraints. */
  predicate AllPropertiesValid(properties: map<nat, Property>) {
    forall k :: k in properties ==> ValidProperty(properties[k])
  }

  /** Every property's owner is a stored user. */
  predicate OwnersStored(properties: map<nat, Property>, users: map<nat, User>) {
    forall k :: k in properties ==> properties[k].owner.id in users && users[properties[k].owner.id] == properties[k].owner
  }

  /** Referential integrity of tenants: each one references a stored property.
      Creating and updating tenants keep it; deleting a property may break it. */
  predicate TenantsReferToProperties(tenants: map<nat, Tenant>, properties: map<nat, Property>) {
    forall k :: k in tenants ==> tenants[k].propertyId in properties
  }

  /** The emails of the registered users. */
  function Emails(users: map<nat, User>): set<string> {
    set k | k in users :: users[k].email
  }

  /** UserRepository.existsByEmail: some stored user has exactly this email. */
  predicate ExistsByEmail(users: map<nat, User>, email: string)
    ensures ExistsByEmail(users, email) <==> email in Emails(users)
  {
    exists k :: k in users && users[k].email == email
  }

  /** UserRepository.findByEmail: the user with that email, if any. */
  function FindByEmail(users: map<nat, User>, email: string): (r: Option<User>)
    requires UserKeysAreIds(users) && UniqueEmails(users)
    ensures r.Some? <==> ExistsByEmail(users, email)
    ensures r.Some? ==> r.value.id in users && users[r.value.id] == r.value && r.value.email == email
  {
    if ExistsByEmail(users, email) then
      var k :| k in users && users[k].email == email;
      Some(users[k])
    else
      None
  }

  class Store {
    var users: map<nat, User>
    var nextUserId: nat
    var properties: map<nat, Property>
    var nextPropertyId: nat
    var tenants: map<nat, Tenant>
    var nextTenantId: nat

    /** The invariant every service call keeps. */
    ghost predicate Valid()
      reads this
      ensures Valid() ==> AllPropertiesValid(properties) && OwnersStored(properties, users)
    {
      && KeysBelow(users, nextUserId) && UserKeysAreIds(users) && UniqueEmails(users)
      && KeysBelow(properties, nextPropertyId) && PropertyKeysAreIds(properties)
      && AllPropertiesValid(properties) && OwnersStored(properties, users)
      && KeysBelow(tenants, nextTenantId) && TenantKeysAreIds(tenants)
    }

    /** Empty tables; identity columns start at 1. */
    constructor ()
      ensures Valid()
      ensures users == map[] && properties == map[] && tenants == map[]
      ensures TenantsReferToProperties(tenants, properties)
    {
      users, nextUserId := map[], 1;
      properties, nextPropertyId := map[], 1;
      tenants, nextTenantId := map[], 1;
    }
  }
}
