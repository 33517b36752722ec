/** The directory reconciliation of `syncCustomers` as functions over a store value: company
    upserts by name, customer upsert by external id, the feed as a sequence of records, and
    the manual attach-company operation. */
module Reconcile {
  import opened Tables
  import opened Feed

  /** The local store: the customer table and the company table. */
  datatype Db = Db(customers: CustomerTable, companies: CompanyTable)

  /** The store's invariant: issued ids, unique external ids, associations point at companies. */
  predicate Valid(db: Db) {
    && CustomerTableValid(db.customers)
    && CompanyIdsIssued(db.companies)
    && (forall k :: k in db.customers.rows ==> db.customers.rows[k].companies <= db.companies.rows.Keys)
  }

  /** In a valid store an external id is carried by at most one customer, so the lookup by
      external id finds exactly the customer that carries it. */
  lemma ValidStoreFindsTheOnlyCustomer(db: Db, id: string, k: nat)
    requires Valid(db) && HasCustomerId(db.customers, k, id)
    ensures FindCustomer(db.customers, id) == Some(k)
  {
  }

  // ---------------------------------------------------------------------------
  // Companies, one address at a time

  datatype Upserted = Upserted(table: CompanyTable, linked: Option<nat>)

  /** One iteration of the address loop: find the first company with the address's name;
      if there is one, overwrite its address fields; otherwise create one, but only when
      the address names a company. The company found or created is linked to the customer. */
  function UpsertCompany(t: CompanyTable, a: Address): (r: Upserted)
    requires CompanyIdsIssued(t)
    ensures CompanyIdsIssued(r.table) && CompaniesExtend(t, r.table)
    ensures r.linked == FindCompany(r.table, CompanyName(a))
    ensures NamesCompany(a) ==> r.linked.Some?
    ensures r.linked.Some? ==> r.table.rows[r.linked.value] == Company(CompanyName(a), LocationOf(a))
    ensures r.table.next == if NamesCompany(a) && FindCompany(t, CompanyName(a)).None? then t.next + 1 else t.next
    ensures r.table.rows.Keys == if r.table.next == t.next then t.rows.Keys else t.rows.Keys + {t.next}
    ensures forall k :: k in t.rows && r.linked != Some(k) ==> r.table.rows[k] == t.rows[k]
  {
    var name := CompanyName(a);
    match FindCompany(t, name)
    case Some(k) =>
      var u := CompanyTable(t.rows[k := t.rows[k].(location := LocationOf(a))], t.next);
      FindCompanyStable(t, u, name);
      Upserted(u, Some(k))
    case None =>
      if NamesCompany(a) then
        var u := CompanyTable(t.rows[t.next := Company(a.company.value, LocationOf(a))], t.next + 1);
        assert Named(u, t.next, name);
        assert forall j :: Named(u, j, name) && j != t.next ==> Named(t, j, name);
        Upserted(u, Some(t.next))
      else
        Upserted(t, None)
  }

  datatype Collected = Collected(table: CompanyTable, linked: seq<nat>)

  /** The address loop: upsert each address in order, collecting the linked company ids
      (`validCompanies`). */
  function UpsertCompanies(t: CompanyTable, addresses: seq<Address>): (r: Collected)
    requires CompanyIdsIssued(t)
    ensures CompanyIdsIssued(r.table) && CompaniesExtend(t, r.table)
    ensures forall i :: 0 <= i < |r.linked| ==> r.linked[i] in r.table.rows
    decreases |addresses|
  {
    if addresses == [] then Collected(t, [])
    else
      var prev := UpsertCompanies(t, addresses[..|addresses| - 1]);
      var step := UpsertCompany(prev.table, addresses[|addresses| - 1]);
      CompaniesExtendTransitive(t, prev.table, step.table);
      Collected(step.table, prev.linked + if step.linked.Some? then [step.linked.value] else [])
  }

  /** One address creates a company only under a name no company had. */
  lemma UpsertCompanyCreatesOnlyNewNames(t: CompanyTable, a: Address)
    requires CompanyIdsIssued(t)
    ensures CreatesOnlyNewNames(t, UpsertCompany(t, a).table)
  {
  }

  /** The address loop of one record creates no duplicate company: each company it creates
      has a name no company had before the loop, and it creates at most one per name. */
  lemma {:induction false} UpsertCompaniesCreatesOnlyNewNames(t: CompanyTable, addresses: seq<Address>)
    requires CompanyIdsIssued(t)
    ensures CreatesOnlyNewNames(t, UpsertCompanies(t, addresses).table)
    decreases |addresses|
  {
    if addresses != [] {
      var prev := UpsertCompanies(t, addresses[..|addresses| - 1]).table;
      UpsertCompaniesCreatesOnlyNewNames(t, addresses[..|addresses| - 1]);
      UpsertCompanyCreatesOnlyNewNames(prev, addresses[|addresses| - 1]);
      CreatesOnlyNewNamesTransitive(t, prev, UpsertCompany(prev, addresses[|addresses| - 1]).table);
    } else {
      assert UpsertCompanies(t, addresses).table == t;
    }
  }

  /** The location the last address naming `name` gives (later addresses win). */
  function LastLocation(addresses: seq<Address>, name: string): Option<Location>
    decreases |addresses|
  {
    if addresses == [] then None
    else if CompanyName(addresses[|addresses| - 1]) == name then Some(LocationOf(addresses[|addresses| - 1]))
    else LastLocation(addresses[..|addresses| - 1], name)
  }

  /** The companies the addresses' names find in table `t`. */
  function Resolve(t: CompanyTable, addresses: seq<Address>): (r: set<nat>)
    ensures r <= t.rows.Keys
    decreases |addresses|
  {
    if addresses == [] then {}
    else
      Resolve(t, addresses[..|addresses| - 1]) +
      match FindCompany(t, CompanyName(addresses[|addresses| - 1]))
      case Some(k) => {k}
      case None => {}
  }

  /** After the address loop every company name the addresses give is found, except
      possibly the empty name. */
  lemma {:induction false} UpsertCompaniesFindsNames(t: CompanyTable, addresses: seq<Address>)
    requires CompanyIdsIssued(t)
    ensures forall name :: LastLocation(addresses, name).Some? && name != "" ==>
                             FindCompany(UpsertCompanies(t, addresses).table, name).Some?
    decreases |addresses|
  {
    if addresses != [] {
      var init := addresses[..|addresses| - 1];
      var a := addresses[|addresses| - 1];
      var prev := UpsertCompanies(t, init);
      var u := UpsertCompany(prev.table, a).table;
      UpsertCompaniesFindsNames(t, init);
      forall name | LastLocation(addresses, name).Some? && name != ""
        ensures FindCompany(u, name).Some?
      {
        if CompanyName(a) != name {
          FindCompanyStable(prev.table, u, name);
        }
      }
    }
  }

  /** When every name of `addresses` is found (or empty), growing the table does not change
      what the names find. */
  lemma {:induction false} ResolveStable(t: CompanyTable, u: CompanyTable, addresses: seq<Address>)
    requires CompanyIdsIssued(t) && CompaniesExtend(t, u)
    requires forall name :: LastLocation(addresses, name).Some? && name != "" ==> FindCompany(t, name).Some?
    ensures Resolve(t, addresses) == Resolve(u, addresses)
    decreases |addresses|
  {
    if addresses != [] {
      var init := addresses[..|addresses| - 1];
      var a := addresses[|addresses| - 1];
      assert forall name :: LastLocation(init, name).Some? ==> LastLocation(addresses, name).Some?;
      ResolveStable(t, u, init);
      assert LastLocation(addresses, CompanyName(a)).Some?;
      FindCompanyStable(t, u, CompanyName(a));
    }
  }

  lemma SetOfAppend(s: seq<nat>, extra: seq<nat>)
    ensures (set k | k in s + extra) == (set k | k in s) + (set k | k in extra)
  {
  }

  /** The ids the loop collects are exactly the companies the addresses' names find once
      the loop is over. */
  lemma {:induction false} LinkedIsResolved(t: CompanyTable, addresses: seq<Address>)
    requires CompanyIdsIssued(t)
    ensures var r := UpsertCompanies(t, addresses); (set k | k in r.linked) == Resolve(r.table, addresses)
    decreases |addresses|
  {
    if addresses != [] {
      var init := addresses[..|addresses| - 1];
      var a := addresses[|addresses| - 1];
      var prev := UpsertCompanies(t, init);
      var step := UpsertCompany(prev.table, a);
      LinkedIsResolved(t, init);
      UpsertCompaniesFindsNames(t, init);
      ResolveStable(prev.table, step.table, init);
      SetOfAppend(prev.linked, if step.linked.Some? then [step.linked.value] else []);
    }
  }

  // ---------------------------------------------------------------------------
  // Customers, one record at a time

  /** `Created` and `Updated` name the customer written; `DuplicateCustomerId` is the
      unique-constraint failure of a create whose external id is already taken. */
  datatype Outcome = Created(customer: nat) | Updated(customer: nat) | DuplicateCustomerId

  datatype Applied = Applied(db: Db, outcome: Outcome)

  /** One record of the sync: look the customer up by external id, upsert the companies of
      its addresses, then update the customer found (only when its stored external id is
      non-empty) or create one; the collected companies are connected, never replacing
      existing associations. */
  function ApplyRecord(db: Db, r: CustomerRecord): (res: Applied)
    requires Valid(db)
    ensures Valid(res.db)
    ensures res.db.companies == UpsertCompanies(db.companies, r.addresses).table
    ensures CustomersExtend(db.customers, res.db.customers)
  {
    var ct := db.customers;
    var existing := FindCustomer(ct, r.id);
    var collected := UpsertCompanies(db.companies, r.addresses);
    var linked := set k | k in collected.linked;
    if existing.Some? && r.id != "" then
      var k := existing.value;
      var c := ct.rows[k];
      var updated := c.(contact := ContactOf(r), companies := c.companies + linked);
      WriteKeepsStoreValid(db, collected.table, k, updated);
      Applied(Db(CustomerTable(ct.rows[k := updated], ct.next), collected.table), Updated(k))
    else if existing.Some? then
      GrowingCompaniesKeepsStoreValid(db, collected.table);
      Applied(Db(ct, collected.table), DuplicateCustomerId)
    else
      var created := Customer(Some(r.id), ContactOf(r), linked);
      CreateKeepsStoreValid(db, collected.table, created);
      Applied(Db(CustomerTable(ct.rows[ct.next := created], ct.next + 1), collected.table), Created(ct.next))
  }

  lemma GrowingCompaniesKeepsStoreValid(db: Db, u: CompanyTable)
    requires Valid(db) && CompanyIdsIssued(u) && CompaniesExtend(db.companies, u)
    ensures Valid(Db(db.customers, u))
  {
    assert db.companies.rows.Keys <= u.rows.Keys;
  }

  /** Rewriting a customer without touching its external id, linking only existing
      companies, keeps the store valid. */
  lemma WriteKeepsStoreValid(db: Db, u: CompanyTable, k: nat, c: Customer)
    requires Valid(db) && CompanyIdsIssued(u) && CompaniesExtend(db.companies, u)
    requires k in db.customers.rows && c.customerId == db.customers.rows[k].customerId
    requires c.companies <= u.rows.Keys
    ensures var ct := CustomerTable(db.customers.rows[k := c], db.customers.next);
            Valid(Db(ct, u)) && CustomersExtend(db.customers, ct)
  {
    GrowingCompaniesKeepsStoreValid(db, u);
  }

  /** Creating a customer under a fresh id with an external id no customer carries, linking
      only existing companies, keeps the store valid. */
  lemma CreateKeepsStoreValid(db: Db, u: CompanyTable, c: Customer)
    requires Valid(db) && CompanyIdsIssued(u) && CompaniesExtend(db.companies, u)
    requires c.customerId.Some? && FindCustomer(db.customers, c.customerId.value).None?
    requires c.companies <= u.rows.Keys
    ensures var ct := CustomerTable(db.customers.rows[db.customers.next := c], db.customers.next + 1);
            Valid(Db(ct, u)) && CustomersExtend(db.customers, ct)
  {
    GrowingCompaniesKeepsStoreValid(db, u);
    assert forall j :: j in db.customers.rows ==> !HasCustomerId(db.customers, j, c.customerId.value);
  }

  /** Natural-key upsert: a record whose external id a customer already carries updates
      that customer and creates nothing; otherwise exactly one customer is created. An
      empty external id that is already taken fails on the unique column instead. */
  lemma RecordUpsertsByExternalId(db: Db, r: CustomerRecord)
    requires Valid(db)
    ensures var res := ApplyRecord(db, r);
      && (res.outcome.Updated? <==> r.id != "" && FindCustomer(db.customers, r.id).Some?)
      && (res.outcome.Created? <==> FindCustomer(db.customers, r.id).None?)
      && (res.outcome.Updated? ==>
            && res.outcome.customer == FindCustomer(db.customers, r.id).value
            && res.db.customers.rows.Keys == db.customers.rows.Keys
            && res.db.customers.next == db.customers.next)
      && (res.outcome.Created? ==>
            && res.outcome.customer == db.customers.next
            && res.db.customers.rows.Keys == db.customers.rows.Keys + {db.customers.next}
            && res.db.customers.next == db.customers.next + 1)
      && (res.outcome.DuplicateCustomerId? ==> res.db.customers == db.customers)
  {
  }

  /** The customer written takes its contact fields from the record (null becomes '') and
      its associations become the prior ones plus the companies its addresses' names find;
      every other customer is left as it was. */
  lemma RecordSetsCustomer(db: Db, r: CustomerRecord)
    requires Valid(db)
    ensures var res := ApplyRecord(db, r);
      && (!res.outcome.DuplicateCustomerId? ==>
            var k := res.outcome.customer;
            && k in res.db.customers.rows
            && res.db.customers.rows[k].customerId == Some(r.id)
            && res.db.customers.rows[k].contact == ContactOf(r)
            && res.db.customers.rows[k].companies ==
                 (if k in db.customers.rows then db.customers.rows[k].companies else {}) +
                 Resolve(res.db.companies, r.addresses))
      && (forall k :: k in db.customers.rows && res.outcome != Updated(k) ==>
                        res.db.customers.rows[k] == db.customers.rows[k])
  {
    LinkedIsResolved(db.companies, r.addresses);
  }

  /** A record's merge removes no customer's association. */
  lemma RecordKeepsAssociations(db: Db, r: CustomerRecord)
    requires Valid(db)
    ensures var res := ApplyRecord(db, r);
            forall k :: k in db.customers.rows ==> db.customers.rows[k].companies <= res.db.customers.rows[k].companies
  {
    RecordSetsCustomer(db, r);
  }

  lemma CustomersExtendTransitive(t: CustomerTable, u: CustomerTable, v: CustomerTable)
    requires CustomersExtend(t, u) && CustomersExtend(u, v)
    ensures CustomersExtend(t, v)
  {
  }

  datatype Pass = Pass(db: Db, outcomes: seq<Outcome>)

  /** A reconciliation pass: the records of the feed merged one after another. */
  function ApplyFeed(db: Db, feed: seq<CustomerRecord>): (res: Pass)
    requires Valid(db)
    ensures Valid(res.db) && |res.outcomes| == |feed|
    ensures CompaniesExtend(db.companies, res.db.companies)
    ensures CustomersExtend(db.customers, res.db.customers)
    ensures forall k :: k in db.customers.rows ==>
                          db.customers.rows[k].companies <= res.db.customers.rows[k].companies
    decreases |feed|
  {
    if feed == [] then Pass(db, [])
    else
      var prev := ApplyFeed(db, feed[..|feed| - 1]);
      var step := ApplyRecord(prev.db, feed[|feed| - 1]);
      CompaniesExtendTransitive(db.companies, prev.db.companies, step.db.companies);
      CustomersExtendTransitive(db.customers, prev.db.customers, step.db.customers);
      RecordKeepsAssociations(prev.db, feed[|feed| - 1]);
      Pass(step.db, prev.outcomes + [step.outcome])
  }

  /** A whole pass creates no duplicate company: each company it creates has a name no
      company had before the pass, and it creates at most one per name. */
  lemma {:induction false} ApplyFeedCreatesOnlyNewNames(db: Db, feed: seq<CustomerRecord>)
    requires Valid(db)
    ensures CreatesOnlyNewNames(db.companies, ApplyFeed(db, feed).db.companies)
    decreases |feed|
  {
    if feed != [] {
      var prev := ApplyFeed(db, feed[..|feed| - 1]).db;
      var r := feed[|feed| - 1];
      ApplyFeedCreatesOnlyNewNames(db, feed[..|feed| - 1]);
      UpsertCompaniesCreatesOnlyNewNames(prev.companies, r.addresses);
      CreatesOnlyNewNamesTransitive(db.companies, prev.companies, ApplyRecord(prev, r).db.companies);
    } else {
      assert ApplyFeed(db, feed).db == db;
    }
  }

  /** On a store where no two companies share a name, a pass keeps it so. */
  lemma ApplyFeedKeepsCompanyNamesUnique(db: Db, feed: seq<CustomerRecord>)
    requires Valid(db) && CompanyNamesUnique(db.companies)
    ensures CompanyNamesUnique(ApplyFeed(db, feed).db.companies)
  {
    ApplyFeedCreatesOnlyNewNames(db, feed);
    CreatesOnlyNewNamesKeepsUnique(db.companies, ApplyFeed(db, feed).db.companies);
  }

  // ---------------------------------------------------------------------------
  // Attaching a company by hand

  datatype AttachError = CompanyNotFound | CustomerNotFound

  datatype AttachResult = Attached(db: Db) | NotAttached(error: AttachError)

  /** `POST /:id/company/:companyId`: an unknown company is reported before anything is
      written; otherwise the company is connected to the customer (the update fails when
      the customer does not exist). */
  function AttachCompany(db: Db, customer: nat, company: nat): (r: AttachResult)
    requires Valid(db)
    ensures r == NotAttached(CompanyNotFound) <==> company !in db.companies.rows
    ensures r == NotAttached(CustomerNotFound) <==> company in db.companies.rows && customer !in db.customers.rows
    ensures r.Attached? ==>
              && Valid(r.db)
              && r.db.companies == db.companies
              && r.db.customers.next == db.customers.next
              && r.db.customers.rows.Keys == db.customers.rows.Keys
              && r.db.customers.rows[customer].companies == db.customers.rows[customer].companies + {company}
              && r.db.customers.rows[customer].customerId == db.customers.rows[customer].customerId
              && r.db.customers.rows[customer].contact == db.customers.rows[customer].contact
              && forall k :: k in db.customers.rows && k != customer ==> r.db.customers.rows[k] == db.customers.rows[k]
  {
    if company !in db.companies.rows then NotAttached(CompanyNotFound)
    else if customer !in db.customers.rows then NotAttached(CustomerNotFound)
    else
      var c := db.customers.rows[customer];
      var rows := db.customers.rows[customer := c.(companies := c.companies + {company})];
      Attached(Db(CustomerTable(rows, db.customers.next), db.companies))
  }

  /** A company attached by hand stays attached through any later reconciliation pass. */
  lemma AttachedCompanySurvivesSync(db: Db, customer: nat, company: nat, feed: seq<CustomerRecord>)
    requires Valid(db) && AttachCompany(db, customer, company).Attached?
    ensures var after := ApplyFeed(AttachCompany(db, customer, company).db, feed).db;
            customer in after.customers.rows && company in after.customers.rows[customer].companies
  {
  }
}
