/** The persisted records: User, Property and Tenant, and the Bean Validation
    constraints that the Property entity declares on its fields. */
module Entities {
  import opened Results

  /** User.Role; OWNER is the only constant this core assigns or reads. */
  datatype Role = Owner

  /** A row of the users table; `password` holds the encoded password. */
  datatype User = User(id: nat, name: string, email: string, password: string, role: Role)

  /** A row of the properties table.  `rentAmount` is a nullable Double in the
      entity, so None stands for null.  The owner is a reference that is never
      null; users are not updated or deleted, so holding the owner's value is
      the same as holding the reference. */
  datatype Property = Property(id: nat, title: string, address: string, rentAmount: Option<real>, owner: User)

  /** A row of the tenants table.  The property reference is kept as the id
      of the property row, so that reading it sees later updates of that row. */
  datatype Tenant = Tenant(id: nat, name: string, email: string, phone: string, propertyId: nat)

  /** String.trim without its trailing half: drops the leading characters up
      to U+0020. */
  function TrimStart(s: string): (r: string)
    ensures |r| == 0 <==> forall i :: 0 <= i < |s| ==> s[i] <= ' '
    ensures |r| > 0 ==> r[0] > ' '
  {
    if |s| > 0 && s[0] <= ' ' then TrimStart(s[1..]) else s
  }

  /** String.trim without its leading half: drops the trailing characters up
      to U+0020. */
  function TrimEnd(s: string): (r: string)
    ensures |r| == 0 <==> forall i :: 0 <= i < |s| ==> s[i] <= ' '
  {
    if |s| > 0 && s[|s| - 1] <= ' ' then TrimEnd(s[..|s| - 1]) else s
  }

  /** String.trim: both ends stripped of characters up to U+0020. */
  function Trim(s: string): string {
    TrimEnd(TrimStart(s))
  }

  /** @NotBlank: the text has a character other than white space, that is,
      it is not empty once trimmed. */
  predicate NotBlank(s: string) {
    exists i :: 0 <= i < |s| && s[i] > ' '
  }

  /** NotBlank agrees with the definition of @NotBlank: a text passes
      exactly when trimming leaves something. */
  lemma NotBlankIsNonEmptyTrim(s: string)
    ensures NotBlank(s) <==> |Trim(s)| > 0
  {
  }

  const TitleRequired := "Title is required"
  const AddressRequired := "Address is required"
  const RentRequired := "Rent amount is required"
  const RentPositive := "Rent amount must be greater than 0"

  /** The constraints of Property.java on the fields a caller supplies:
      non-blank title and address, rent amount present and strictly above
      0.0 (@DecimalMin with inclusive = false).  The fields are valid
      exactly when Bean Validation reports no violation. */
  predicate ValidFields(title: string, address: string, rentAmount: Option<real>)
    ensures ValidFields(title, address, rentAmount) <==> Violations(title, address, rentAmount) == {}
    ensures ValidFields(title, address, rentAmount) ==> rentAmount.Some? && rentAmount.value > 0.0
  {
    && NotBlank(title)
    && NotBlank(address)
    && rentAmount.Some?
    && rentAmount.value > 0.0
  }

  predicate ValidProperty(p: Property) {
    ValidFields(p.title, p.address, p.rentAmount)
  }

  /** The messages of the constraints a property with these fields violates,
      as Bean Validation reports them when the entity is saved.  @DecimalMin
      accepts null, so a missing rent amount fails only @NotNull. */
  function Violations(title: string, address: string, rentAmount: Option<real>): (v: set<string>)
    ensures TitleRequired in v <==> !NotBlank(title)
    ensures AddressRequired in v <==> !NotBlank(address)
    ensures RentRequired in v <==> rentAmount.None?
    ensures RentPositive in v <==> rentAmount.Some? && rentAmount.value <= 0.0
    ensures v <= {TitleRequired, AddressRequired, RentRequired, RentPositive}
  {
    (if NotBlank(title) then {} else {TitleRequired})
    + (if NotBlank(address) then {} else {AddressRequired})
    + (match rentAmount
       case None => {RentRequired}
       case Some(amount) => if amount > 0.0 then {} else {RentPositive})
  }
}
