/** The local store's two tables, customers and companies, and the key lookups the sync uses. */
module Tables {

  datatype Option<+T> = None | Some(value: T)

  /** The address fields of a company row. */
  datatype Location = Location(address1: string, address2: string, city: string, province: string)

  /** The name and contact fields of a customer row. */
  datatype Contact = Contact(firstName: string, lastName: string, email: string, phone: string)

  /** A company row; the sync treats `name` as its natural key, though the schema does not make it unique. */
  datatype Company = Company(name: string, location: Location)

  /** A customer row: `customerId` is the external directory's id (None for a customer created
      locally) and `companies` the ids of the companies it is associated with. */
  datatype Customer = Customer(customerId: Option<string>, contact: Contact, companies: set<nat>)

  /** A table: rows keyed by local id, and the id the next created row receives. */
  datatype CompanyTable = CompanyTable(rows: map<nat, Company>, next: nat)
  datatype CustomerTable = CustomerTable(rows: map<nat, Customer>, next: nat)

  /** Every id in use was issued before `next`. */
  predicate CompanyIdsIssued(t: CompanyTable) {
    forall k :: k in t.rows ==> k < t.next
  }

  /** Ids were issued before `next`, and `customerId` is unique where present (a unique column). */
  predicate CustomerTableValid(t: CustomerTable) {
    && (forall k :: k in t.rows ==> k < t.next)
    && (forall j, k ::
          j in t.rows && k in t.rows && t.rows[j].customerId.Some? && t.rows[j].customerId == t.rows[k].customerId
          ==> j == k)
  }

  // ---------------------------------------------------------------------------
  // Companies: `findFirst({ where: { name } })`

  predicate Named(t: CompanyTable, k: nat, name: string) {
    k in t.rows && t.rows[k].name == name
  }

  function FindCompanyFrom(t: CompanyTable, name: string, from: nat): (r: Option<nat>)
    decreases t.next - from
    ensures r.Some? ==> from <= r.value < t.next && Named(t, r.value, name)
    ensures r.Some? ==> forall j :: from <= j < r.value ==> !Named(t, j, name)
    ensures r.None? ==> forall j :: from <= j < t.next ==> !Named(t, j, name)
  {
    if from >= t.next then None
    else if Named(t, from, name) then Some(from)
    else FindCompanyFrom(t, name, from + 1)
  }

  /** The first company (smallest id) with exactly this name, if any. */
  function FindCompany(t: CompanyTable, name: string): (r: Option<nat>)
    ensures r.Some? ==> r.value < t.next && Named(t, r.value, name)
    ensures r.Some? ==> forall j :: 0 <= j < r.value ==> !Named(t, j, name)
    ensures r.None? ==> forall j :: 0 <= j < t.next ==> !Named(t, j, name)
  {
    FindCompanyFrom(t, name, 0)
  }

  /** Rows of `t` survive in `u` under the same name; rows new in `u` got fresh ids and a
      non-empty name. This is how the sync changes the company table. */
  predicate CompaniesExtend(t: CompanyTable, u: CompanyTable) {
    && t.next <= u.next
    && (forall k :: k in t.rows ==> k in u.rows && u.rows[k].name == t.rows[k].name)
    && (forall k :: k in u.rows && k !in t.rows ==> t.next <= k && u.rows[k].name != "")
  }

  lemma CompaniesExtendTransitive(t: CompanyTable, u: CompanyTable, v: CompanyTable)
    requires CompaniesExtend(t, u) && CompaniesExtend(u, v)
    ensures CompaniesExtend(t, v)
  {
  }

  /** Every row `u` adds to `t` carries a name `t` did not find, and no two added rows share
      a name: growing `t` into `u` created no duplicate. */
  predicate CreatesOnlyNewNames(t: CompanyTable, u: CompanyTable) {
    && (forall k :: k in u.rows && k !in t.rows ==> FindCompany(t, u.rows[k].name).None?)
    && (forall j, k ::
          j in u.rows && j !in t.rows && k in u.rows && k !in t.rows && u.rows[j].name == u.rows[k].name
          ==> j == k)
  }

  /** A name that is found keeps pointing at the same company as the table grows, and the
      empty name, never given to a created company, stays unfound if it was. */
  lemma FindCompanyStable(t: CompanyTable, u: CompanyTable, name: string)
    requires CompanyIdsIssued(t) && CompaniesExtend(t, u)
    requires FindCompany(t, name).Some? || name == ""
    ensures FindCompany(u, name) == FindCompany(t, name)
  {
    var r := FindCompany(u, name);
    match FindCompany(t, name)
    case Some(k) =>
      assert Named(u, k, name);
      if r.Some? && r.value < k {
        assert Named(t, r.value, name);
      }
    case None =>
      assert forall j :: Named(u, j, name) ==> Named(t, j, name);
  }

  lemma CreatesOnlyNewNamesTransitive(t: CompanyTable, u: CompanyTable, v: CompanyTable)
    requires CompanyIdsIssued(t) && CompanyIdsIssued(u)
    requires CompaniesExtend(t, u) && CompaniesExtend(u, v)
    requires CreatesOnlyNewNames(t, u) && CreatesOnlyNewNames(u, v)
    ensures CreatesOnlyNewNames(t, v)
  {
    forall k | k in v.rows && k !in t.rows ensures FindCompany(t, v.rows[k].name).None? {
      var name := v.rows[k].name;
      if k !in u.rows && FindCompany(t, name).Some? {
        FindCompanyStable(t, u, name);
      }
    }
    forall j, k | j in v.rows && j !in t.rows && k in v.rows && k !in t.rows && v.rows[j].name == v.rows[k].name
      ensures j == k
    {
      var name := v.rows[j].name;
      if j in u.rows && k !in u.rows {
        assert Named(u, j, name);
      } else if k in u.rows && j !in u.rows {
        assert Named(u, k, name);
      }
    }
  }

  /** No two companies share a name, so a name lookup has at most one candidate. */
  predicate CompanyNamesUnique(t: CompanyTable) {
    forall j, k :: j in t.rows && k in t.rows && t.rows[j].name == t.rows[k].name ==> j == k
  }

  lemma CreatesOnlyNewNamesKeepsUnique(t: CompanyTable, u: CompanyTable)
    requires CompanyIdsIssued(t) && CompaniesExtend(t, u) && CreatesOnlyNewNames(t, u)
    requires CompanyNamesUnique(t)
    ensures CompanyNamesUnique(u)
  {
    forall j, k | j in u.rows && k in u.rows && u.rows[j].name == u.rows[k].name ensures j == k {
      if j in t.rows && k !in t.rows {
        assert Named(t, j, u.rows[j].name);
      } else if k in t.rows && j !in t.rows {
        assert Named(t, k, u.rows[k].name);
      }
    }
  }

  /** Two tables with the same ids, the same names and the same counter answer every
      name lookup alike. */
  lemma FindCompanySameShape(t: CompanyTable, u: CompanyTable, name: string)
    requires CompanyIdsIssued(t) && CompanyIdsIssued(u)
    requires CompaniesExtend(t, u) && CompaniesExtend(u, t)
    ensures FindCompany(u, name) == FindCompany(t, name)
  {
    if FindCompany(t, name).Some? {
      FindCompanyStable(t, u, name);
    } else if FindCompany(u, name).Some? {
      FindCompanyStable(u, t, name);
    }
  }

  // ---------------------------------------------------------------------------
  // Customers: `findUnique({ where: { customerId } })`

  predicate HasCustomerId(t: CustomerTable, k: nat, id: string) {
    k in t.rows && t.rows[k].customerId == Some(id)
  }

  function FindCustomerFrom(t: CustomerTable, id: string, from: nat): (r: Option<nat>)
    decreases t.next - from
    ensures r.Some? ==> from <= r.value < t.next && HasCustomerId(t, r.value, id)
    ensures r.None? ==> forall j :: from <= j < t.next ==> !HasCustomerId(t, j, id)
  {
    if from >= t.next then None
    else if HasCustomerId(t, from, id) then Some(from)
    else FindCustomerFrom(t, id, from + 1)
  }

  /** The customer whose external id is `id`; in a valid table it is the only one. */
  function FindCustomer(t: CustomerTable, id: string): (r: Option<nat>)
    ensures r.Some? ==> r.value < t.next && HasCustomerId(t, r.value, id)
    ensures r.None? ==> forall j :: 0 <= j < t.next ==> !HasCustomerId(t, j, id)
  {
    FindCustomerFrom(t, id, 0)
  }

  /** Rows of `t` survive in `u` with the same external id; rows new in `u` got fresh ids. */
  predicate CustomersExtend(t: CustomerTable, u: CustomerTable) {
    && t.next <= u.next
    && (forall k :: k in t.rows ==> k in u.rows && u.rows[k].customerId == t.rows[k].customerId)
    && (forall k :: k in u.rows && k !in t.rows ==> t.next <= k)
  }

  /** In a valid table a found external id keeps pointing at the same customer as the table grows. */
  lemma FindCustomerStable(t: CustomerTable, u: CustomerTable, id: string)
    requires CustomerTableValid(t) && CustomerTableValid(u) && CustomersExtend(t, u)
    requires FindCustomer(t, id).Some?
    ensures FindCustomer(u, id) == FindCustomer(t, id)
  {
    var k := FindCustomer(t, id).value;
    assert HasCustomerId(u, k, id);
  }
}
