/** The external directory's customer feed, and how its nullable fields become store values. */
module Feed {
  import opened Tables

  /** One address of an external customer; every field may be null. `company` is free text. */
  datatype Address = Address(
    address1: Option<string>,
    address2: Option<string>,
    city: Option<string>,
    company: Option<string>,
    province: Option<string>)

  /** One external customer record. `id` is the directory's stable identifier; `displayName`
      is fetched but never stored. */
  datatype CustomerRecord = CustomerRecord(
    id: string,
    firstName: Option<string>,
    lastName: Option<string>,
    displayName: Option<string>,
    email: Option<string>,
    phone: Option<string>,
    addresses: seq<Address>)

  /** `value || ''`: null and the empty string both become the empty string; any other
      value is kept. */
  function OrEmpty(v: Option<string>): (s: string)
    ensures s == "" <==> v.None? || v == Some("")
    ensures s != "" ==> v == Some(s)
  {
    match v
    case Some(s) => s
    case None => ""
  }

  /** The name a company is looked up by: `address.company || ''`. It is non-empty exactly
      when the address names a company, and is then that name. */
  function CompanyName(a: Address): (name: string)
    ensures name != "" <==> NamesCompany(a)
    ensures NamesCompany(a) ==> name == a.company.value
  {
    OrEmpty(a.company)
  }

  /** Whether the address names a company (the truthiness test `if (address.company)`). */
  predicate NamesCompany(a: Address) {
    a.company.Some? && a.company.value != ""
  }

  /** The address fields a company receives from an address: each present value as given,
      each null as the empty string. */
  function LocationOf(a: Address): (l: Location)
    ensures a.address1.Some? ==> l.address1 == a.address1.value
    ensures a.address2.Some? ==> l.address2 == a.address2.value
    ensures a.city.Some? ==> l.city == a.city.value
    ensures a.province.Some? ==> l.province == a.province.value
    ensures a.address1.None? ==> l.address1 == ""
    ensures a.address2.None? ==> l.address2 == ""
    ensures a.city.None? ==> l.city == ""
    ensures a.province.None? ==> l.province == ""
  {
    Location(OrEmpty(a.address1), OrEmpty(a.address2), OrEmpty(a.city), OrEmpty(a.province))
  }

  /** The contact fields a customer receives from a record: each present value as given,
      each null as the empty string. */
  function ContactOf(r: CustomerRecord): (c: Contact)
    ensures r.firstName.Some? ==> c.firstName == r.firstName.value
    ensures r.lastName.Some? ==> c.lastName == r.lastName.value
    ensures r.email.Some? ==> c.email == r.email.value
    ensures r.phone.Some? ==> c.phone == r.phone.value
    ensures r.firstName.None? ==> c.firstName == ""
    ensures r.lastName.None? ==> c.lastName == ""
    ensures r.email.None? ==> c.email == ""
    ensures r.phone.None? ==> c.phone == ""
  {
    Contact(OrEmpty(r.firstName), OrEmpty(r.lastName), OrEmpty(r.email), OrEmpty(r.phone))
  }
}
