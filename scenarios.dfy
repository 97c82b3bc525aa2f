/** Call sequences through the tools, checked against what the contracts of
    CustomerStore and CustomerTools promise a caller. */
module Scenarios {
  import opened Values
  import opened CustomerStore
  import opened CustomerTools

  /** A second customer with the same email is refused, the first stays as
      it was, and the refused insert still used up id 2. */
  method DuplicateEmail()
  {
    var store := new Store();
    var ann := Customer(1, "Ann Smith", "ann@example.com", Some(30), None, Timestamp("t0"));
    var first := store.AddCustomer("Ann Smith", "ann@example.com", Some(30), None, Timestamp("t0"), Healthy);
    assert first == Some(AsRow(ann));
    assert store.rows[1].email == "ann@example.com";
    var text := CreateCustomer(store, "Bob", "ann@example.com", None, None, Timestamp("t1"), Healthy);
    assert text == CreateFailedMessage;
    assert store.rows == map[1 := ann] && store.nextId == 3;
    var shown := GetCustomer(store, 1, Healthy);
    assert shown == CustomerText(1, Some(AsRow(ann)));
    assert store.openPools == 0;
  }

  /** Updating only the age keeps name, email and prefer_package. */
  method UpdateThenRead()
  {
    var store := new Store();
    var hannah := Customer(1, "Hannah", "h@example.com", None, Some(2), Timestamp("t0"));
    var _ := store.AddCustomer("Hannah", "h@example.com", None, Some(2), Timestamp("t0"), Healthy);
    assert store.rows == map[1 := hannah];
    var changes := Changes(None, None, Some(41), None);
    var updated := Customer(1, "Hannah", "h@example.com", Some(41), Some(2), Timestamp("t0"));
    assert Merge(hannah, changes) == updated;
    assert !EmailTakenByOther(store.rows, 1, "h@example.com");
    var text := ModifyCustomer(store, 1, changes, Healthy);
    assert store.rows[1] == updated;
    assert text == UpdatedText(1, Some(AsRow(updated)));
  }

  /** An update whose fields are all empty or zero never reaches the store. */
  method EmptyUpdateRefused(store: Store)
    requires store.Valid() && store.openPools == 0
    modifies store
  {
    ghost var before := store.rows;
    var refused := ModifyCustomer(store, 1, Changes(Some(""), None, Some(0), None), Healthy);
    assert refused == NoFieldsMessage && store.rows == before;
  }

  /** After a delete the id is not found. */
  method DeleteThenRead()
  {
    var store := new Store();
    var _ := store.AddCustomer("annabelle", "b@example.com", None, None, Timestamp("t0"), Healthy);
    var removed := RemoveCustomer(store, 1, Healthy);
    assert removed == RemovalText(1, true);
    assert 1 !in store.rows;
    var shown := GetCustomer(store, 1, Healthy);
    assert shown == CustomerText(1, None);
  }

  /** Deleting an id that is not there is still reported as a success,
      because the DELETE ran; the empty table then lists as no customers. */
  method DeleteAgain(store: Store)
    requires store.Valid() && store.openPools == 0 && store.rows == map[]
    modifies store
  {
    var again := RemoveCustomer(store, 1, Healthy);
    assert again == RemovalText(1, true);
    var listed := ListCustomers(store, Healthy);
    assert store.order == [];
    assert listed == NoCustomersMessage;
  }

  /** When no pool can be created the reading tools answer their empty
      or not-found text. */
  method PoolUnavailableReads(store: Store)
    requires store.Valid() && store.openPools == 0
    modifies store`openPools, store`connectAttempts
  {
    var listed := ListCustomers(store, PoolUnavailable);
    assert listed == NoCustomersMessage;
    var shown := GetCustomer(store, 1, PoolUnavailable);
    assert shown == CustomerText(1, None);
    var found := FindCustomersByName(store, "ann", PoolUnavailable);
    assert found == MatchesText("ann", []);
    assert store.openPools == 0;
  }

  /** When no pool can be created the writing tools answer their failure
      text, nothing is written and nothing is left open. */
  method PoolUnavailableWrites(store: Store)
    requires store.Valid() && store.openPools == 0 && 1 in store.rows
    modifies store
  {
    ghost var before := store.rows;
    var created := CreateCustomer(store, "Bob", "bob@example.com", None, None, Timestamp("t1"), PoolUnavailable);
    assert created == CreateFailedMessage;
    var updated := ModifyCustomer(store, 1, Changes(Some("Annie"), None, None, None), PoolUnavailable);
    assert updated == UpdatedText(1, None);
    var removed := RemoveCustomer(store, 1, PoolUnavailable);
    assert removed == RemovalText(1, false);
    assert store.rows == before && store.openPools == 0;
  }
}
