/** Syncing the same feed twice leaves the store exactly as syncing it once.

    The proof has two halves. A pass leaves a store that "absorbs" its feed: the company a
    name finds holds the location the feed's last address with that name gives, a synced
    customer holds its last record's contact fields and every company its records link, and
    every natural key of the feed is found. A second pass over a store in which every key
    is found creates nothing and has a closed form, `Replayed`, which is the identity on a
    store that absorbs the feed. */
module Idempotence {
  import opened Tables
  import opened Feed
  import opened Reconcile

  // ---------------------------------------------------------------------------
  // What a feed says about companies: the last location given to each name

  /** The location the feed's last address naming `name` gives. */
  function FeedLocation(feed: seq<CustomerRecord>, name: string): Option<Location>
    decreases |feed|
  {
    if feed == [] then None
    else
      match LastLocation(feed[|feed| - 1].addresses, name)
      case Some(l) => Some(l)
      case None => FeedLocation(feed[..|feed| - 1], name)
  }

  /** The location last given to `name` by the feed followed by the addresses of a record
      in progress. */
  function Combined(feed: seq<CustomerRecord>, addresses: seq<Address>, name: string): Option<Location> {
    match LastLocation(addresses, name)
    case Some(l) => Some(l)
    case None => FeedLocation(feed, name)
  }

  lemma CombinedAppend(feed: seq<CustomerRecord>, addresses: seq<Address>, a: Address, name: string)
    ensures Combined(feed, addresses + [a], name) ==
            if CompanyName(a) == name then Some(LocationOf(a)) else Combined(feed, addresses, name)
  {
    assert (addresses + [a])[..|addresses|] == addresses;
  }

  lemma FeedLocationAppend(feed: seq<CustomerRecord>, r: CustomerRecord, name: string)
    ensures FeedLocation(feed + [r], name) == Combined(feed, r.addresses, name)
  {
    assert (feed + [r])[..|feed|] == feed;
  }

  /** The company a name finds is the canonical row for that name. */
  ghost predicate Canonical(t: CompanyTable, k: nat) {
    k in t.rows && FindCompany(t, t.rows[k].name) == Some(k)
  }

  /** Every canonical company holds the location last given to its name. */
  ghost predicate CompaniesAbsorb(t: CompanyTable, feed: seq<CustomerRecord>, addresses: seq<Address>) {
    forall k :: Canonical(t, k) && Combined(feed, addresses, t.rows[k].name).Some? ==>
      t.rows[k].location == Combined(feed, addresses, t.rows[k].name).value
  }

  /** Every non-empty name given a location is found. */
  ghost predicate CompaniesSettled(t: CompanyTable, feed: seq<CustomerRecord>, addresses: seq<Address>) {
    forall name :: Combined(feed, addresses, name).Some? && name != "" ==> FindCompany(t, name).Some?
  }

  lemma UpsertCompanyAbsorbs(t: CompanyTable, feed: seq<CustomerRecord>, addresses: seq<Address>, a: Address)
    requires CompanyIdsIssued(t)
    requires CompaniesAbsorb(t, feed, addresses) && CompaniesSettled(t, feed, addresses)
    ensures var u := UpsertCompany(t, a).table;
            CompaniesAbsorb(u, feed, addresses + [a]) && CompaniesSettled(u, feed, addresses + [a])
  {
    var r := UpsertCompany(t, a);
    var u := r.table;
    forall name ensures Combined(feed, addresses + [a], name) ==
                        if CompanyName(a) == name then Some(LocationOf(a)) else Combined(feed, addresses, name) {
      CombinedAppend(feed, addresses, a, name);
    }
    forall k | Canonical(u, k) && Combined(feed, addresses + [a], u.rows[k].name).Some?
      ensures u.rows[k].location == Combined(feed, addresses + [a], u.rows[k].name).value
    {
      if r.linked != Some(k) {
        var name := u.rows[k].name;
        assert k in t.rows && t.rows[k] == u.rows[k];
        FindCompanyStable(t, u, name);
      }
    }
    forall name | Combined(feed, addresses + [a], name).Some? && name != ""
      ensures FindCompany(u, name).Some?
    {
      if CompanyName(a) != name {
        FindCompanyStable(t, u, name);
      }
    }
  }

  lemma {:induction false} UpsertCompaniesAbsorb(t: CompanyTable, feed: seq<CustomerRecord>, addresses: seq<Address>)
    requires CompanyIdsIssued(t)
    requires CompaniesAbsorb(t, feed, []) && CompaniesSettled(t, feed, [])
    ensures var u := UpsertCompanies(t, addresses).table;
            CompaniesAbsorb(u, feed, addresses) && CompaniesSettled(u, feed, addresses)
    decreases |addresses|
  {
    if addresses != [] {
      var init := addresses[..|addresses| - 1];
      var a := addresses[|addresses| - 1];
      UpsertCompaniesAbsorb(t, feed, init);
      UpsertCompanyAbsorbs(UpsertCompanies(t, init).table, feed, init, a);
      assert init + [a] == addresses;
    }
  }

  /** Within one record, when two addresses name the same company the later one's fields
      are what the company keeps. */
  lemma LaterAddressWins(t: CompanyTable, addresses: seq<Address>)
    requires CompanyIdsIssued(t)
    ensures var u := UpsertCompanies(t, addresses).table;
            forall name :: LastLocation(addresses, name).Some? && FindCompany(u, name).Some? ==>
              u.rows[FindCompany(u, name).value].location == LastLocation(addresses, name).value
  {
    UpsertCompaniesAbsorb(t, [], addresses);
  }

  // ---------------------------------------------------------------------------
  // What a feed says about customers: last contact fields and linked companies

  /** The contact fields of the feed's last record with external id `id`. */
  function LastContact(feed: seq<CustomerRecord>, id: string): Option<Contact>
    decreases |feed|
  {
    if feed == [] then None
    else if feed[|feed| - 1].id == id then Some(ContactOf(feed[|feed| - 1]))
    else LastContact(feed[..|feed| - 1], id)
  }

  /** The companies, found in `t`, that the feed's records with external id `id` name. */
  function LinkedFor(feed: seq<CustomerRecord>, id: string, t: CompanyTable): set<nat>
    decreases |feed|
  {
    if feed == [] then {}
    else
      LinkedFor(feed[..|feed| - 1], id, t) +
      if feed[|feed| - 1].id == id then Resolve(t, feed[|feed| - 1].addresses) else {}
  }

  /** A customer the sync can update: one carrying a non-empty external id. */
  predicate Synced(c: Customer) {
    c.customerId.Some? && c.customerId.value != ""
  }

  /** Every synced customer holds its last record's contact fields and at least the companies
      its records link. */
  ghost predicate CustomersAbsorb(ct: CustomerTable, feed: seq<CustomerRecord>, t: CompanyTable) {
    forall k :: k in ct.rows && Synced(ct.rows[k]) && LastContact(feed, ct.rows[k].customerId.value).Some? ==>
      && ct.rows[k].contact == LastContact(feed, ct.rows[k].customerId.value).value
      && LinkedFor(feed, ct.rows[k].customerId.value, t) <= ct.rows[k].companies
  }

  /** Every external id of the feed is found. */
  ghost predicate CustomersSettled(ct: CustomerTable, feed: seq<CustomerRecord>) {
    forall id :: LastContact(feed, id).Some? ==> FindCustomer(ct, id).Some?
  }

  lemma {:induction false} NoRecordNoLinks(feed: seq<CustomerRecord>, id: string, t: CompanyTable)
    requires LastContact(feed, id).None?
    ensures LinkedFor(feed, id, t) == {}
    decreases |feed|
  {
    if feed != [] {
      NoRecordNoLinks(feed[..|feed| - 1], id, t);
    }
  }

  lemma FeedLocationOfPrefix(feed: seq<CustomerRecord>, name: string)
    requires feed != []
    ensures FeedLocation(feed[..|feed| - 1], name).Some? ==> FeedLocation(feed, name).Some?
    ensures LastLocation(feed[|feed| - 1].addresses, name).Some? ==> FeedLocation(feed, name).Some?
  {
  }

  /** When the feed's names are found, growing the company table does not change what the
      feed's records link. */
  lemma {:induction false} LinkedForStable(feed: seq<CustomerRecord>, id: string, t: CompanyTable, u: CompanyTable)
    requires CompanyIdsIssued(t) && CompaniesExtend(t, u)
    requires CompaniesSettled(t, feed, [])
    ensures LinkedFor(feed, id, t) == LinkedFor(feed, id, u)
    decreases |feed|
  {
    if feed != [] {
      var init := feed[..|feed| - 1];
      forall name ensures FeedLocation(init, name).Some? ==> FeedLocation(feed, name).Some?
        ensures LastLocation(feed[|feed| - 1].addresses, name).Some? ==> FeedLocation(feed, name).Some? {
        FeedLocationOfPrefix(feed, name);
      }
      LinkedForStable(init, id, t, u);
      ResolveStable(t, u, feed[|feed| - 1].addresses);
    }
  }

  // ---------------------------------------------------------------------------
  // First half: a pass absorbs its feed

  lemma RecordAbsorbsCompanies(d: Db, feed: seq<CustomerRecord>, r: CustomerRecord)
    requires Valid(d)
    requires CompaniesAbsorb(d.companies, feed, []) && CompaniesSettled(d.companies, feed, [])
    ensures var u := ApplyRecord(d, r).db.companies;
            CompaniesAbsorb(u, feed + [r], []) && CompaniesSettled(u, feed + [r], [])
  {
    UpsertCompaniesAbsorb(d.companies, feed, r.addresses);
    forall name ensures Combined(feed + [r], [], name) == Combined(feed, r.addresses, name) {
      FeedLocationAppend(feed, r, name);
    }
  }

  lemma RecordAbsorbsCustomers(d: Db, feed: seq<CustomerRecord>, r: CustomerRecord)
    requires Valid(d)
    requires CompaniesSettled(d.companies, feed, [])
    requires CustomersAbsorb(d.customers, feed, d.companies) && CustomersSettled(d.customers, feed)
    ensures var e := ApplyRecord(d, r).db;
            CustomersAbsorb(e.customers, feed + [r], e.companies) && CustomersSettled(e.customers, feed + [r])
  {
    var res := ApplyRecord(d, r);
    var e := res.db;
    var g := feed + [r];
    assert g[..|feed|] == feed;
    RecordUpsertsByExternalId(d, r);
    RecordSetsCustomer(d, r);
    forall id ensures LinkedFor(feed, id, d.companies) == LinkedFor(feed, id, e.companies) {
      LinkedForStable(feed, id, d.companies, e.companies);
    }
    forall k | k in e.customers.rows && Synced(e.customers.rows[k]) && LastContact(g, e.customers.rows[k].customerId.value).Some?
      ensures e.customers.rows[k].contact == LastContact(g, e.customers.rows[k].customerId.value).value
      ensures LinkedFor(g, e.customers.rows[k].customerId.value, e.companies) <= e.customers.rows[k].companies
    {
      var id := e.customers.rows[k].customerId.value;
      if res.outcome == Updated(k) || res.outcome == Created(k) {
        if LastContact(feed, id).None? {
          NoRecordNoLinks(feed, id, d.companies);
        }
      } else {
        assert k in d.customers.rows && e.customers.rows[k] == d.customers.rows[k];
        assert HasCustomerId(d.customers, k, id);
      }
    }
    forall id | LastContact(g, id).Some? ensures FindCustomer(e.customers, id).Some? {
      if id == r.id && FindCustomer(d.customers, id).None? {
        assert HasCustomerId(e.customers, d.customers.next, id);
      } else {
        FindCustomerStable(d.customers, e.customers, id);
      }
    }
  }

  /** The absorbing invariant survives merging a feed's last record. */
  lemma RecordAbsorbs(d: Db, feed: seq<CustomerRecord>)
    requires Valid(d) && feed != []
    requires var init := feed[..|feed| - 1];
             && CompaniesAbsorb(d.companies, init, []) && CompaniesSettled(d.companies, init, [])
             && CustomersAbsorb(d.customers, init, d.companies) && CustomersSettled(d.customers, init)
    ensures var e := ApplyRecord(d, feed[|feed| - 1]).db;
            && CompaniesAbsorb(e.companies, feed, []) && CompaniesSettled(e.companies, feed, [])
            && CustomersAbsorb(e.customers, feed, e.companies) && CustomersSettled(e.customers, feed)
  {
    var init := feed[..|feed| - 1];
    var r := feed[|feed| - 1];
    RecordAbsorbsCompanies(d, init, r);
    RecordAbsorbsCustomers(d, init, r);
    assert init + [r] == feed;
  }

  lemma {:induction false} SyncAbsorbsFeed(db: Db, feed: seq<CustomerRecord>)
    requires Valid(db)
    ensures var d := ApplyFeed(db, feed).db;
            && CompaniesAbsorb(d.companies, feed, []) && CompaniesSettled(d.companies, feed, [])
            && CustomersAbsorb(d.customers, feed, d.companies) && CustomersSettled(d.customers, feed)
    decreases |feed|
  {
    if feed != [] {
      var init := feed[..|feed| - 1];
      SyncAbsorbsFeed(db, init);
      var prev := ApplyFeed(db, init);
      RecordAbsorbs(prev.db, feed);
      assert ApplyFeed(db, feed).db == ApplyRecord(prev.db, feed[|feed| - 1]).db;
    }
  }

  /** After a pass, the company each non-empty name of the feed finds holds the location
      of the feed's last address with that name: one row per name, latest fields. */
  lemma FeedLastAddressWins(db: Db, feed: seq<CustomerRecord>)
    requires Valid(db)
    ensures var t := ApplyFeed(db, feed).db.companies;
            forall name :: FeedLocation(feed, name).Some? && name != "" ==>
              && FindCompany(t, name).Some?
              && t.rows[FindCompany(t, name).value].location == FeedLocation(feed, name).value
  {
    SyncAbsorbsFeed(db, feed);
  }

  // ---------------------------------------------------------------------------
  // Second half: replaying a feed on a store that finds all its keys

  ghost function ReplayCompany(t: CompanyTable, k: nat, feed: seq<CustomerRecord>, addresses: seq<Address>): Company
    requires k in t.rows
  {
    var name := t.rows[k].name;
    if Canonical(t, k) && Combined(feed, addresses, name).Some? then
      t.rows[k].(location := Combined(feed, addresses, name).value)
    else t.rows[k]
  }

  /** The company table after replaying `feed` and then `addresses` on `t`. */
  ghost function CompaniesReplayed(t: CompanyTable, feed: seq<CustomerRecord>, addresses: seq<Address>): CompanyTable {
    CompanyTable(map k | k in t.rows :: ReplayCompany(t, k, feed, addresses), t.next)
  }

  lemma ReplayedSameShape(t: CompanyTable, feed: seq<CustomerRecord>, addresses: seq<Address>)
    requires CompanyIdsIssued(t)
    ensures var s := CompaniesReplayed(t, feed, addresses);
            CompanyIdsIssued(s) && CompaniesExtend(t, s) && CompaniesExtend(s, t)
            && forall name :: FindCompany(s, name) == FindCompany(t, name)
  {
    var s := CompaniesReplayed(t, feed, addresses);
    forall name ensures FindCompany(s, name) == FindCompany(t, name) {
      FindCompanySameShape(t, s, name);
    }
  }

  lemma ReplayUpsertCompany(t: CompanyTable, feed: seq<CustomerRecord>, addresses: seq<Address>, a: Address)
    requires CompanyIdsIssued(t)
    requires NamesCompany(a) ==> FindCompany(t, CompanyName(a)).Some?
    ensures UpsertCompany(CompaniesReplayed(t, feed, addresses), a).table == CompaniesReplayed(t, feed, addresses + [a])
  {
    var s := CompaniesReplayed(t, feed, addresses);
    var s' := CompaniesReplayed(t, feed, addresses + [a]);
    ReplayedSameShape(t, feed, addresses);
    var u := UpsertCompany(s, a).table;
    forall name ensures Combined(feed, addresses + [a], name) ==
                        if CompanyName(a) == name then Some(LocationOf(a)) else Combined(feed, addresses, name) {
      CombinedAppend(feed, addresses, a, name);
    }
    assert u.rows.Keys == s'.rows.Keys;
    forall k | k in u.rows ensures u.rows[k] == s'.rows[k] {
      if FindCompany(t, CompanyName(a)) != Some(k) && t.rows[k].name == CompanyName(a) {
        assert !Canonical(t, k);
      }
    }
    assert u.rows == s'.rows;
  }

  /** A name an earlier address gives is still given a location by the longer list, and so
      is the last address's name. */
  lemma LastLocationOfPrefix(addresses: seq<Address>)
    requires addresses != []
    ensures forall name :: LastLocation(addresses[..|addresses| - 1], name).Some? ==> LastLocation(addresses, name).Some?
    ensures LastLocation(addresses, CompanyName(addresses[|addresses| - 1])).Some?
  {
  }

  lemma {:induction false} ReplayUpsertCompanies(t: CompanyTable, feed: seq<CustomerRecord>, addresses: seq<Address>)
    requires CompanyIdsIssued(t)
    requires forall name :: LastLocation(addresses, name).Some? && name != "" ==> FindCompany(t, name).Some?
    ensures UpsertCompanies(CompaniesReplayed(t, feed, []), addresses).table == CompaniesReplayed(t, feed, addresses)
    decreases |addresses|
  {
    if addresses != [] {
      var init := addresses[..|addresses| - 1];
      var a := addresses[|addresses| - 1];
      LastLocationOfPrefix(addresses);
      ReplayUpsertCompanies(t, feed, init);
      ReplayedSameShape(t, feed, []);
      ReplayUpsertCompany(t, feed, init, a);
      assert init + [a] == addresses;
    }
  }

  ghost function ReplayCustomer(c: Customer, feed: seq<CustomerRecord>, t: CompanyTable): Customer {
    if Synced(c) && LastContact(feed, c.customerId.value).Some? then
      c.(contact := LastContact(feed, c.customerId.value).value,
         companies := c.companies + LinkedFor(feed, c.customerId.value, t))
    else c
  }

  /** The store after replaying `feed` on `d`, when every key of the feed is found in `d`. */
  ghost function Replayed(d: Db, feed: seq<CustomerRecord>): Db {
    Db(CustomerTable(map k | k in d.customers.rows :: ReplayCustomer(d.customers.rows[k], feed, d.companies),
                     d.customers.next),
       CompaniesReplayed(d.companies, feed, []))
  }

  /** Replaying a feed and then a record's addresses is replaying the feed extended by the record. */
  lemma ReplayedAppendRecord(t: CompanyTable, feed: seq<CustomerRecord>, r: CustomerRecord)
    ensures CompaniesReplayed(t, feed, r.addresses) == CompaniesReplayed(t, feed + [r], [])
  {
    forall name ensures Combined(feed + [r], [], name) == Combined(feed, r.addresses, name) {
      FeedLocationAppend(feed, r, name);
    }
    assert CompaniesReplayed(t, feed, r.addresses).rows == CompaniesReplayed(t, feed + [r], []).rows;
  }

  lemma ReplayRecordCompanies(d: Db, feed: seq<CustomerRecord>, r: CustomerRecord)
    requires Valid(d) && Valid(Replayed(d, feed))
    requires CompaniesSettled(d.companies, feed + [r], [])
    ensures ApplyRecord(Replayed(d, feed), r).db.companies == CompaniesReplayed(d.companies, feed + [r], [])
    ensures Resolve(ApplyRecord(Replayed(d, feed), r).db.companies, r.addresses) == Resolve(d.companies, r.addresses)
  {
    var u := ApplyRecord(Replayed(d, feed), r).db.companies;
    forall name | LastLocation(r.addresses, name).Some? && name != "" ensures FindCompany(d.companies, name).Some? {
      FeedLocationAppend(feed, r, name);
    }
    ReplayUpsertCompanies(d.companies, feed, r.addresses);
    ReplayedAppendRecord(d.companies, feed, r);
    ReplayedSameShape(d.companies, feed + [r], []);
    ResolveStable(d.companies, u, r.addresses);
  }

  /** Replaying one more record leaves every customer it does not update as the replay of
      the shorter feed left it. */
  lemma ReplayOtherCustomer(c: Customer, feed: seq<CustomerRecord>, r: CustomerRecord, t: CompanyTable)
    requires Synced(c) ==> c.customerId.value != r.id
    ensures ReplayCustomer(c, feed + [r], t) == ReplayCustomer(c, feed, t)
  {
    assert (feed + [r])[..|feed|] == feed;
  }

  /** Replaying one more record on the customer it updates sets the record's contact fields
      and adds the companies the record's addresses find. */
  lemma ReplayUpdatedCustomer(c: Customer, feed: seq<CustomerRecord>, r: CustomerRecord, t: CompanyTable)
    requires c.customerId == Some(r.id) && r.id != ""
    ensures ReplayCustomer(c, feed + [r], t) ==
            c.(contact := ContactOf(r), companies := ReplayCustomer(c, feed, t).companies + Resolve(t, r.addresses))
  {
    assert (feed + [r])[..|feed|] == feed;
    if LastContact(feed, r.id).None? {
      NoRecordNoLinks(feed, r.id, t);
    }
  }

  /** Replaying keeps every customer's id and external id. */
  lemma ReplayedCustomersExtend(d: Db, feed: seq<CustomerRecord>)
    ensures var x := Replayed(d, feed).customers;
            x.rows.Keys == d.customers.rows.Keys && CustomersExtend(d.customers, x)
  {
  }

  lemma ReplayRecordCustomers(d: Db, feed: seq<CustomerRecord>, r: CustomerRecord)
    requires Valid(d) && Valid(Replayed(d, feed))
    requires CompaniesSettled(d.companies, feed + [r], []) && CustomersSettled(d.customers, feed + [r])
    ensures var res := ApplyRecord(Replayed(d, feed), r);
            res.db.customers == Replayed(d, feed + [r]).customers && !res.outcome.Created?
  {
    var x := Replayed(d, feed);
    var g := feed + [r];
    assert g[..|feed|] == feed;
    var res := ApplyRecord(x, r);
    ReplayRecordCompanies(d, feed, r);
    ReplayedCustomersExtend(d, feed);
    assert LastContact(g, r.id).Some?;
    FindCustomerStable(d.customers, x.customers, r.id);
    RecordUpsertsByExternalId(x, r);
    RecordSetsCustomer(x, r);
    var want := Replayed(d, g).customers;
    forall k | k in res.db.customers.rows ensures res.db.customers.rows[k] == want.rows[k] {
      var c := d.customers.rows[k];
      if res.outcome == Updated(k) {
        ReplayUpdatedCustomer(c, feed, r, d.companies);
      } else {
        ReplayOtherCustomer(c, feed, r, d.companies);
      }
    }
    assert res.db.customers.rows == want.rows;
  }

  /** A store that finds every key of a feed finds every key of its prefixes. */
  lemma SettledPrefix(d: Db, feed: seq<CustomerRecord>)
    requires feed != []
    requires CompaniesSettled(d.companies, feed, []) && CustomersSettled(d.customers, feed)
    ensures CompaniesSettled(d.companies, feed[..|feed| - 1], []) && CustomersSettled(d.customers, feed[..|feed| - 1])
  {
    forall name ensures FeedLocation(feed[..|feed| - 1], name).Some? ==> FeedLocation(feed, name).Some? {
      FeedLocationOfPrefix(feed, name);
    }
  }

  /** On a store that finds every key of a feed, merging the feed's last record after the
      replay of the rest gives the replay of the whole feed and creates no customer. */
  lemma ReplayStep(d: Db, feed: seq<CustomerRecord>)
    requires Valid(d) && feed != [] && Valid(Replayed(d, feed[..|feed| - 1]))
    requires CompaniesSettled(d.companies, feed, []) && CustomersSettled(d.customers, feed)
    ensures var res := ApplyRecord(Replayed(d, feed[..|feed| - 1]), feed[|feed| - 1]);
            res.db == Replayed(d, feed) && !res.outcome.Created?
  {
    var init := feed[..|feed| - 1];
    var r := feed[|feed| - 1];
    assert init + [r] == feed;
    ReplayRecordCompanies(d, init, r);
    ReplayRecordCustomers(d, init, r);
  }

  /** No record of the pass created a customer. */
  predicate NoneCreated(outcomes: seq<Outcome>) {
    forall i :: 0 <= i < |outcomes| ==> !outcomes[i].Created?
  }

  lemma NoneCreatedAppend(outcomes: seq<Outcome>, o: Outcome)
    requires NoneCreated(outcomes) && !o.Created?
    ensures NoneCreated(outcomes + [o])
  {
  }

  lemma {:induction false} ReplayFeed(d: Db, feed: seq<CustomerRecord>)
    requires Valid(d)
    requires CompaniesSettled(d.companies, feed, []) && CustomersSettled(d.customers, feed)
    ensures ApplyFeed(d, feed).db == Replayed(d, feed)
    ensures NoneCreated(ApplyFeed(d, feed).outcomes)
    decreases |feed|
  {
    if feed == [] {
      assert Replayed(d, feed).customers.rows == d.customers.rows;
      assert Replayed(d, feed).companies.rows == d.companies.rows;
    } else {
      var init := feed[..|feed| - 1];
      var r := feed[|feed| - 1];
      SettledPrefix(d, feed);
      ReplayFeed(d, init);
      var prev := ApplyFeed(d, init);
      ReplayStep(d, feed);
      var step := ApplyRecord(prev.db, r);
      NoneCreatedAppend(prev.outcomes, step.outcome);
      assert ApplyFeed(d, feed) == Pass(step.db, prev.outcomes + [step.outcome]);
    }
  }

  lemma ReplayOfAbsorbingStoreIsIdentity(d: Db, feed: seq<CustomerRecord>)
    requires Valid(d)
    requires CompaniesAbsorb(d.companies, feed, []) && CustomersAbsorb(d.customers, feed, d.companies)
    ensures Replayed(d, feed) == d
  {
    var x := Replayed(d, feed);
    forall k | k in d.customers.rows ensures x.customers.rows[k] == d.customers.rows[k] {
      var c := d.customers.rows[k];
      if Synced(c) && LastContact(feed, c.customerId.value).Some? {
        assert c.companies + LinkedFor(feed, c.customerId.value, d.companies) == c.companies;
      }
    }
    assert x.customers.rows == d.customers.rows;
    assert x.companies.rows == d.companies.rows;
  }

  // ---------------------------------------------------------------------------
  // The theorem

  /** Syncing the same feed a second time creates no customer and no company, and leaves
      the store exactly as the first sync left it. */
  lemma {:induction false} SyncTwiceIsSyncOnce(db: Db, feed: seq<CustomerRecord>)
    requires Valid(db)
    ensures var once := ApplyFeed(db, feed).db;
            var twice := ApplyFeed(once, feed);
            && twice.db == once
            && forall i :: 0 <= i < |feed| ==> !twice.outcomes[i].Created?
  {
    var once := ApplyFeed(db, feed).db;
    SyncAbsorbsFeed(db, feed);
    ReplayFeed(once, feed);
    ReplayOfAbsorbingStoreIsIdentity(once, feed);
  }
}
