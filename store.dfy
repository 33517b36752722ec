/** The local store as a mutable object, and the sync and attach operations as methods
    that update it in place. Each method is proved to leave the store in the state the
    corresponding function of `Reconcile` describes. */
module CustomerStore {
  import opened Tables
  import opened Feed
  import opened Reconcile

  class Store {
    var customers: map<nat, Customer>
    var nextCustomerId: nat
    var companies: map<nat, Company>
    var nextCompanyId: nat

    function CompanyRows(): CompanyTable
      reads this
    {
      CompanyTable(companies, nextCompanyId)
    }

    function CustomerRows(): CustomerTable
      reads this
    {
      CustomerTable(customers, nextCustomerId)
    }

    /** The store's contents as a value. */
    function State(): Db
      reads this
    {
      Db(CustomerRows(), CompanyRows())
    }

    ghost predicate Valid()
      reads this
    {
      Reconcile.Valid(State())
    }

    /** An empty store. */
    constructor ()
      ensures Valid()
      ensures State() == Db(CustomerTable(map[], 0), CompanyTable(map[], 0))
    {
      customers := map[];
      nextCustomerId := 0;
      companies := map[];
      nextCompanyId := 0;
    }

    /** One address of the loop: `findFirst` the company by name, then update its address
        fields, or create it when the address names one. */
    method UpsertCompanyFor(a: Address) returns (linked: Option<nat>)
      requires CompanyIdsIssued(CompanyRows())
      modifies this
      ensures UpsertCompany(old(CompanyRows()), a) == Upserted(CompanyRows(), linked)
      ensures customers == old(customers) && nextCustomerId == old(nextCustomerId)
    {
      var found := FindCompany(CompanyRows(), CompanyName(a));
      if found.Some? {
        var k := found.value;
        companies := companies[k := companies[k].(location := LocationOf(a))];
        linked := Some(k);
      } else if NamesCompany(a) {
        companies := companies[nextCompanyId := Company(a.company.value, LocationOf(a))];
        linked := Some(nextCompanyId);
        nextCompanyId := nextCompanyId + 1;
      } else {
        linked := None;
      }
    }

    /** The address loop of one record: upserts each address's company in order and
        collects the ids of the companies found or created. */
    method CollectCompanies(addresses: seq<Address>) returns (validCompanies: seq<nat>)
      requires CompanyIdsIssued(CompanyRows())
      modifies this
      ensures UpsertCompanies(old(CompanyRows()), addresses) == Collected(CompanyRows(), validCompanies)
      ensures customers == old(customers) && nextCustomerId == old(nextCustomerId)
    {
      validCompanies := [];
      var i := 0;
      while i < |addresses|
        invariant 0 <= i <= |addresses|
        invariant CompanyIdsIssued(CompanyRows())
        invariant UpsertCompanies(old(CompanyRows()), addresses[..i]) == Collected(CompanyRows(), validCompanies)
        invariant customers == old(customers) && nextCustomerId == old(nextCustomerId)
      {
        assert addresses[..i + 1][..i] == addresses[..i];
        var linked := UpsertCompanyFor(addresses[i]);
        if linked.Some? {
          validCompanies := validCompanies + [linked.value];
        }
        i := i + 1;
      }
      assert addresses[..i] == addresses;
    }

    /** Merges one external record: look the customer up by external id, walk the
        addresses collecting the companies they find or create, then update the customer
        or create it. */
    method SyncCustomer(r: CustomerRecord) returns (outcome: Outcome)
      requires Valid()
      modifies this
      ensures Valid()
      ensures ApplyRecord(old(State()), r) == Applied(State(), outcome)
    {
      ghost var before := State();
      var existing := FindCustomer(CustomerRows(), r.id);
      var validCompanies := CollectCompanies(r.addresses);
      var connect := set k | k in validCompanies;
      ghost var expected := ApplyRecord(before, r);
      assert expected.db.companies == CompanyRows();
      if existing.Some? && r.id != "" {
        var k := existing.value;
        var c := customers[k];
        customers := customers[k := c.(contact := ContactOf(r), companies := c.companies + connect)];
        outcome := Updated(k);
      } else if existing.Some? {
        outcome := DuplicateCustomerId;
      } else {
        customers := customers[nextCustomerId := Customer(Some(r.id), ContactOf(r), connect)];
        outcome := Created(nextCustomerId);
        nextCustomerId := nextCustomerId + 1;
      }
      assert expected == Applied(State(), outcome);
    }

    /** The sync: merges the feed's records one after another. */
    method SyncCustomers(feed: seq<CustomerRecord>) returns (outcomes: seq<Outcome>)
      requires Valid()
      modifies this
      ensures Valid()
      ensures ApplyFeed(old(State()), feed) == Pass(State(), outcomes)
    {
      outcomes := [];
      var i := 0;
      while i < |feed|
        invariant 0 <= i <= |feed|
        invariant Valid()
        invariant ApplyFeed(old(State()), feed[..i]) == Pass(State(), outcomes)
      {
        assert feed[..i + 1][..i] == feed[..i];
        var outcome := SyncCustomer(feed[i]);
        outcomes := outcomes + [outcome];
        i := i + 1;
      }
      assert feed[..i] == feed;
    }

    /** Connects an existing company to an existing customer. */
    method AttachCompany(customer: nat, company: nat) returns (error: Option<AttachError>)
      requires Valid()
      modifies this
      ensures Valid()
      ensures error.None? ==> Reconcile.AttachCompany(old(State()), customer, company) == Attached(State())
      ensures error.Some? ==> Reconcile.AttachCompany(old(State()), customer, company) == NotAttached(error.value)
      ensures error.Some? ==> State() == old(State())
    {
      if company !in companies {
        return Some(CompanyNotFound);
      }
      if customer !in customers {
        return Some(CustomerNotFound);
      }
      var c := customers[customer];
      customers := customers[customer := c.(companies := c.companies + {company})];
      error := None;
    }
  }
}
