/** The records the services exchange with their callers. */
module Dtos {
  import opened Results

  /** PropertyDto.  On input the services read only title, address and
      rentAmount; id, ownerId and ownerName are filled in on output. */
  datatype PropertyDto = PropertyDto(
    id: nat,
    title: string,
    address: string,
    rentAmount: Option<real>,
    ownerId: nat,
    ownerName: string)

  /** TenantDto.  On input the services read name, email, phone and
      propertyId.  On output propertyTitle is the title of the referenced
      property, None when that property row no longer exists. */
  datatype TenantDto = TenantDto(
    id: nat,
    name: string,
    email: string,
    phone: string,
    propertyId: nat,
    propertyTitle: Option<string>)

  /** AuthResponse, returned by register and login alike. */
  datatype AuthResponse = AuthResponse(
    token: string,
    message: string,
    userId: nat,
    name: string,
    email: string)
}
