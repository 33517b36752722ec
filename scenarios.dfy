/** Worked examples of the sync on small stores. */
module Scenarios {
  import opened Tables
  import opened Feed
  import opened Reconcile
  import opened Idempotence

  const EmptyStore := Db(CustomerTable(map[], 0), CompanyTable(map[], 0))

  /** One external customer, "Jane Doe", with one address naming "Acme" in Springfield. */
  const JaneDoe := CustomerRecord("C1", Some("Jane"), Some("Doe"), Some("Jane Doe"), None, None,
                                  [Address(None, None, Some("Springfield"), Some("Acme"), None)])

  const Acme := Company("Acme", Location("", "", "Springfield", ""))
  const Jane := Customer(Some("C1"), Contact("Jane", "Doe", "", ""), {0})

  const JaneDoeStore := Db(CustomerTable(map[0 := Jane], 1), CompanyTable(map[0 := Acme], 1))

  /** The first sync of the one-record feed creates the company and the customer linked to it. */
  lemma JaneDoeFirstSync()
    ensures ApplyFeed(EmptyStore, [JaneDoe]) == Pass(JaneDoeStore, [Created(0)])
  {
    var feed := [JaneDoe];
    assert feed[..0] == [];
    assert JaneDoe.addresses[..0] == [];
    assert FindCompany(EmptyStore.companies, "Acme").None?;
    var companies := UpsertCompanies(EmptyStore.companies, JaneDoe.addresses);
    assert companies == Collected(CompanyTable(map[0 := Acme], 1), [0]);
    assert FindCustomer(EmptyStore.customers, "C1").None?;
    assert (set k | k in companies.linked) == {0};
    var first := ApplyRecord(EmptyStore, JaneDoe);
    assert first.outcome == Created(0);
    assert first.db.companies == CompanyTable(map[0 := Acme], 1);
    assert ContactOf(JaneDoe) == Jane.contact;
    assert first.db.customers.rows[0] == Jane;
    assert first.db.customers == CustomerTable(map[0 := Jane], 1);
    assert ApplyFeed(EmptyStore, feed[..0]) == Pass(EmptyStore, []);
  }

  /** A second sync of the same feed creates nothing, updates the customer in place and
      changes nothing. */
  lemma JaneDoeSecondSync()
    ensures ApplyFeed(JaneDoeStore, [JaneDoe]) == Pass(JaneDoeStore, [Updated(0)])
  {
    JaneDoeFirstSync();
    SyncTwiceIsSyncOnce(EmptyStore, [JaneDoe]);
    assert [JaneDoe][..0] == [];
    assert HasCustomerId(JaneDoeStore.customers, 0, "C1");
    RecordUpsertsByExternalId(JaneDoeStore, JaneDoe);
  }

  /** Union semantics: a customer already linked to one company and synced with an address
      naming another ends up linked to both. */
  lemma UnionOfAssociations()
    ensures var before := Db(CustomerTable(map[0 := Jane], 1),
                             CompanyTable(map[0 := Acme, 1 := Company("Bolt", Location("", "", "", ""))], 2));
            var r := JaneDoe.(addresses := [Address(None, None, None, Some("Bolt"), None)]);
            ApplyRecord(before, r).db.customers.rows[0].companies == {0, 1}
  {
    var before := Db(CustomerTable(map[0 := Jane], 1),
                     CompanyTable(map[0 := Acme, 1 := Company("Bolt", Location("", "", "", ""))], 2));
    var r := JaneDoe.(addresses := [Address(None, None, None, Some("Bolt"), None)]);
    assert r.addresses[..0] == [];
    assert !Named(before.companies, 0, "Bolt") && Named(before.companies, 1, "Bolt");
    assert FindCompany(before.companies, "Bolt") == Some(1);
    assert HasCustomerId(before.customers, 0, "C1");
    RecordUpsertsByExternalId(before, r);
    RecordSetsCustomer(before, r);
  }
}
