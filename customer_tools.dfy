/** The customer tools of db_tools.py: each calls the repository of
    CustomerStore at most once and turns what it gets back into the text the
    caller sees; create, modify and find check their arguments first. Every message is a fixed sentence or a
    multi-line block whose lines are listed here one by one (textwrap.dedent
    has already removed the indentation of the source's literals). */
module CustomerTools {
  import opened Values
  import opened Text
  import opened CustomerStore

  /** customer.get(key, default), as an f-string prints it. */
  function Get(row: Row, key: string, default: string): string
  {
    if key in row then Show(row[key]) else default
  }

  /** A row none of whose printed values breaks a line. */
  predicate Printable(row: Row)
  {
    forall key :: key in row ==> '\n' !in Show(row[key])
  }

  /** The five field lines of every record block. `missing` is what a
      missing name or email prints as: 'N/A' for get_customer and the
      listings, None for create_customer and modify_customer. */
  function FieldLines(row: Row, missing: string): (ls: seq<string>)
    ensures |ls| == 5
    ensures StartsWith(ls[0], "ID: ") && StartsWith(ls[1], "Name: ") && StartsWith(ls[2], "Email: ")
    ensures StartsWith(ls[3], "Age: ") && StartsWith(ls[4], "Prefer Package: ")
  {
    ["ID: " + Get(row, "id", "None"),
     "Name: " + Get(row, "name", missing),
     "Email: " + Get(row, "email", missing),
     "Age: " + Get(row, "age", "N/A"),
     "Prefer Package: " + Get(row, "prefer_package", "N/A")]
  }

  /** A row the repository returns carries every column, so the `missing`
      default and 'N/A' are never printed for it: a NULL age or
      prefer_package prints as "None". */
  lemma RepositoryRowsNeverShowDefault(c: Customer, missing: string)
    ensures FieldLines(AsRow(c), missing) ==
      ["ID: " + IntToString(c.id), "Name: " + c.name, "Email: " + c.email,
       "Age: " + Show(Nullable(c.age)), "Prefer Package: " + Show(Nullable(c.preferPackage))]
  {
    var r := AsRow(c);
    assert Get(r, "id", "None") == IntToString(c.id);
    assert Get(r, "name", missing) == c.name;
    assert Get(r, "email", missing) == c.email;
    assert Get(r, "age", "N/A") == Show(Nullable(c.age));
    assert Get(r, "prefer_package", "N/A") == Show(Nullable(c.preferPackage));
  }

  /** One block of a listing: a blank line, the fields, then "---". */
  function BlockLines(row: Row): (ls: seq<string>)
    ensures |ls| == 7 && ls[0] == "" && ls[6] == "---"
  {
    [""] + FieldLines(row, "N/A") + ["---"]
  }

  lemma GetPrintable(row: Row, key: string, default: string)
    requires Printable(row) && '\n' !in default
    ensures '\n' !in Get(row, key, default)
  {
  }

  /** No line of a printable row's block breaks in two. */
  lemma BlockLinesPrintable(row: Row)
    requires Printable(row)
    ensures NoNewlines(BlockLines(row))
  {
    GetPrintable(row, "id", "None");
    GetPrintable(row, "name", "N/A");
    GetPrintable(row, "email", "N/A");
    GetPrintable(row, "age", "N/A");
    GetPrintable(row, "prefer_package", "N/A");
    var ls := BlockLines(row);
    forall i | 0 <= i < 7 ensures '\n' !in ls[i] {
      if 1 <= i <= 5 {
        assert ls[i] == FieldLines(row, "N/A")[i - 1];
      }
    }
  }

  /** The blocks of a listing, one per row, in the rows' order. */
  function ListedLines(rows: seq<Row>): seq<string>
    decreases |rows|
  {
    if rows == [] then [] else ListedLines(rows[..|rows| - 1]) + BlockLines(rows[|rows| - 1])
  }

  /** Line 7i+k of the blocks is line k of the block of the i-th row: there
      is exactly one block per row, and the blocks come in the rows' order. */
  lemma {:induction false} ListedLinesLength(rows: seq<Row>)
    ensures |ListedLines(rows)| == 7 * |rows|
    decreases |rows|
  {
    if rows != [] {
      ListedLinesLength(rows[..|rows| - 1]);
    }
  }

  lemma {:induction false} ListedLinesAt(rows: seq<Row>, i: nat, k: nat)
    requires i < |rows| && k < 7
    ensures |ListedLines(rows)| == 7 * |rows|
    ensures ListedLines(rows)[7 * i + k] == BlockLines(rows[i])[k]
    decreases |rows|
  {
    ListedLinesLength(rows);
    var n := |rows| - 1;
    var front := rows[..n];
    var a, b := ListedLines(front), BlockLines(rows[n]);
    assert ListedLines(rows) == a + b;
    ListedLinesLength(front);
    if i < n {
      ListedLinesAt(front, i, k);
      assert front[i] == rows[i];
      assert 7 * i + k < |a|;
      assert (a + b)[7 * i + k] == a[7 * i + k];
    } else {
      assert 7 * i + k == |a| + k;
      assert (a + b)[|a| + k] == b[k];
    }
  }

  lemma {:induction false} ListedLinesPrintable(rows: seq<Row>)
    requires forall i :: 0 <= i < |rows| ==> Printable(rows[i])
    ensures NoNewlines(ListedLines(rows))
    decreases |rows|
  {
    if rows != [] {
      var n := |rows| - 1;
      ListedLinesPrintable(rows[..n]);
      BlockLinesPrintable(rows[n]);
      var a, b := ListedLines(rows[..n]), BlockLines(rows[n]);
      forall j | 0 <= j < |a + b| ensures '\n' !in (a + b)[j] {
        if j < |a| {
          assert (a + b)[j] == a[j];
        } else {
          assert (a + b)[j] == b[j - |a|];
        }
      }
    }
  }

  /** A heading line followed by the blocks of the rows. */
  function Listing(heading: string, rows: seq<Row>): string
  {
    Lines([heading] + ListedLines(rows))
  }

  /** A listing splits back into its heading and, for the i-th row, the
      seven lines of its block at 1 + 7i, in order: blank, ID, Name, Email,
      Age, Prefer Package, "---". */
  lemma ListingReadsBack(heading: string, rows: seq<Row>, i: nat, k: nat)
    requires '\n' !in heading
    requires forall j :: 0 <= j < |rows| ==> Printable(rows[j])
    requires i < |rows| && k < 7
    ensures |Split(Listing(heading, rows))| == 2 + 7 * |rows|
    ensures Split(Listing(heading, rows))[0] == heading
    ensures Split(Listing(heading, rows))[1 + 7 * i + k] == BlockLines(rows[i])[k]
  {
    ListedLinesPrintable(rows);
    SplitLines([heading] + ListedLines(rows));
    ListedLinesAt(rows, i, k);
  }

  /** The `for customer in customers: result += dedent(...)` loop shared by
      list_customers (db_tools.py:15-24) and find_customers_by_name
      (db_tools.py:128-137): the heading line, then one block per customer
      in the order given. */
  method FormatBlocks(heading: string, customers: seq<Row>) returns (result: string)
    ensures result == Listing(heading, customers)
  {
    var blocks := "";
    for i := 0 to |customers|
      invariant blocks == Lines(ListedLines(customers[..i]))
    {
      ListedLinesGrow(customers, i);
      blocks := blocks + Lines(BlockLines(customers[i]));
    }
    assert customers[..|customers|] == customers;
    result := heading + "\n" + blocks;
  }

  lemma ListedLinesGrow(rows: seq<Row>, i: nat)
    requires i < |rows|
    ensures Lines(ListedLines(rows[..i + 1])) == Lines(ListedLines(rows[..i])) + Lines(BlockLines(rows[i]))
  {
    assert rows[..i + 1][..i] == rows[..i];
    LinesAppend(ListedLines(rows[..i]), BlockLines(rows[i]));
  }

  const NoCustomersMessage: string := "No customers found in the database."

  /** What list_customers (db_tools.py:4-26) answers for the repository's
      list: a fixed sentence for no customers, otherwise "Customers:" and
      one block per customer. */
  function ListingText(customers: seq<Row>): (text: string)
    ensures customers == [] <==> text == NoCustomersMessage
    ensures customers != [] ==> StartsWith(text, "Customers:\n")
  {
    if customers == [] then NoCustomersMessage
    else
      var text := Listing("Customers:", customers);
      assert text[0] == 'C';
      text
  }

  const NameRequiredMessage: string := "Error: Customer name is required for searching."

  function NoMatchesMessage(name: string): string
  {
    "No customers found with name containing: '" + name + "'"
  }

  /** The opening words of the heading, which state the count. */
  function CountPhrase(count: nat): string
  {
    "Found " + NatToString(count) + " customer(s)"
  }

  function MatchesHeading(count: nat, name: string): string
  {
    CountPhrase(count) + " matching '" + name + "':"
  }

  /** A text that opens with a prefix and has a part further on. */
  lemma Framed(prefix: string, mid: string, part: string, after: string)
    ensures StartsWith(prefix + mid + part + after, prefix)
    ensures Contains(prefix + mid + part + after, part)
  {
    ContainsInfix(prefix + mid, part, after);
    assert (prefix + mid + part + after)[..|prefix|] == prefix;
  }

  /** The listing of a search result begins with its count and echoes the
      name in its heading. */
  lemma MatchListing(name: string, customers: seq<Row>)
    ensures var text := Listing(MatchesHeading(|customers|, name), customers);
      && Contains(text, name)
      && StartsWith(text, CountPhrase(|customers|))
      && StartsWith(text, "Found ")
  {
    var prefix := CountPhrase(|customers|);
    var heading := MatchesHeading(|customers|, name);
    var body := Lines(ListedLines(customers));
    var ls := [heading] + ListedLines(customers);
    assert ls[0] == heading && ls[1..] == ListedLines(customers);
    var text := Listing(heading, customers);
    assert text == heading + "\n" + body;
    assert text == prefix + " matching '" + name + ("':" + "\n" + body);
    Framed(prefix, " matching '", name, "':" + "\n" + body);
    assert text[..6] == text[..|prefix|][..6] == prefix[..6] == "Found ";
  }

  /** What find_customers_by_name (db_tools.py:123-139) answers for the
      repository's matches: a sentence echoing the name when there are
      none, otherwise a heading stating how many there are and echoing the
      name, then one block per match. */
  function MatchesText(name: string, customers: seq<Row>): (text: string)
    ensures Contains(text, name)
    ensures customers != [] ==> StartsWith(text, "Found " + NatToString(|customers|) + " customer(s)")
    ensures StartsWith(text, "Found ") <==> customers != []
  {
    if customers == [] then
      var text := NoMatchesMessage(name);
      ContainsInfix("No customers found with name containing: '", name, "'");
      assert text[0] == 'N';
      text
    else
      MatchListing(name, customers);
      Listing(MatchesHeading(|customers|, name), customers)
  }

  /** Python's `not customer` for what get_customer_by_id and the writers
      return: None, or a dict without keys. */
  predicate Falsy(customer: Option<Row>)
  {
    customer.None? || customer.value == map[]
  }

  function NotFoundMessage(id: int): string
  {
    "No customer found with ID: " + IntToString(id)
  }

  /** What get_customer (db_tools.py:28-46) answers: the not-found sentence
      echoing the id, or "Customer Details:" and the fields. */
  function CustomerText(id: int, customer: Option<Row>): (text: string)
    ensures Falsy(customer) ==> Contains(text, IntToString(id))
    ensures StartsWith(text, "No customer found") <==> Falsy(customer)
  {
    if Falsy(customer) then
      ContainsInfix("No customer found with ID: ", IntToString(id), "");
      assert NotFoundMessage(id) == "No customer found with ID: " + IntToString(id) + "";
      NotFoundMessage(id)
    else
      var text := Lines(["", "Customer Details:"] + FieldLines(customer.value, "N/A"));
      assert text[0] == '\n';
      text
  }

  const NameAndEmailRequiredMessage: string := "Error: Customer name and email are required."
  /** One sentence, written as two literals because Dafny does not look
      inside a string literal this long (CreatedText needs its first
      character). */
  const CreateFailedMessage: string :=
    "Failed to create customer." + " Please check database connection and try again."

  /** What create_customer (db_tools.py:60-72) answers once the arguments
      passed: the fixed failure sentence, or "Customer created
      successfully:" and the fields. */
  function CreatedText(customer: Option<Row>): (text: string)
    ensures Falsy(customer) <==> text == CreateFailedMessage
  {
    if Falsy(customer) then CreateFailedMessage
    else
      var text := Lines(["", "Customer created successfully:"] + FieldLines(customer.value, "None"));
      assert text[0] == '\n' && text != CreateFailedMessage by {
        assert CreateFailedMessage[0] == 'F';
      }
      text
  }

  const NoFieldsMessage: string :=
    "Error: At least one field (name, email, or phone) must be provided for update."

  /** Python's truth value of an optional string or integer argument:
      None, "" and 0 are all false. */
  predicate GivenText(x: Option<string>)
  {
    x.Some? && x.value != ""
  }

  predicate GivenNumber(x: Option<int>)
  {
    x.Some? && x.value != 0
  }

  /** `any([name, email, age, prefer_package])` (db_tools.py:84). */
  predicate AnyFieldGiven(changes: Changes)
  {
    GivenText(changes.name) || GivenText(changes.email)
    || GivenNumber(changes.age) || GivenNumber(changes.preferPackage)
  }

  /** An update whose every field is None, "" or 0 is refused, whatever
      mix of them it is. */
  lemma EmptyOrZeroCountsAsAbsent(name: Option<string>, email: Option<string>, age: Option<int>, preferPackage: Option<int>)
    requires name in {None, Some("")} && email in {None, Some("")}
    requires age in {None, Some(0)} && preferPackage in {None, Some(0)}
    ensures !AnyFieldGiven(Changes(name, email, age, preferPackage))
  {
  }

  function UpdateFailedMessage(id: int): string
  {
    "Failed to update customer with ID: " + IntToString(id) + ". Customer may not exist."
  }

  /** What modify_customer (db_tools.py:87-99) answers once a field was
      given: the failure sentence echoing the id, or "Customer updated
      successfully:" and the fields. */
  function UpdatedText(id: int, customer: Option<Row>): (text: string)
    ensures Falsy(customer) ==> Contains(text, IntToString(id))
    ensures StartsWith(text, "Failed to update") <==> Falsy(customer)
  {
    if Falsy(customer) then
      ContainsInfix("Failed to update customer with ID: ", IntToString(id), ". Customer may not exist.");
      UpdateFailedMessage(id)
    else
      var text := Lines(["", "Customer updated successfully:"] + FieldLines(customer.value, "None"));
      assert text[0] == '\n';
      text
  }

  /** What remove_customer (db_tools.py:101-112) answers: the success
      sentence exactly when the repository said True; both echo the id. */
  function DeletedMessage(id: int): string
  {
    "Customer with ID: " + IntToString(id) + " has been successfully deleted."
  }

  function DeleteFailedMessage(id: int): string
  {
    "Failed to delete customer with ID: " + IntToString(id) + ". Customer may not exist."
  }

  function RemovalText(id: int, deleted: bool): (text: string)
    ensures Contains(text, IntToString(id))
    ensures deleted <==> StartsWith(text, "Customer with ID: ")
  {
    if deleted then
      ContainsInfix("Customer with ID: ", IntToString(id), " has been successfully deleted.");
      DeletedMessage(id)
    else
      ContainsInfix("Failed to delete customer with ID: ", IntToString(id), ". Customer may not exist.");
      var text := DeleteFailedMessage(id);
      assert text[0] == 'F';
      text
  }

  /** list_customers: one repository call; the table is only read. */
  method ListCustomers(store: Store, fault: Fault) returns (text: string)
    requires store.Valid()
    modifies store`openPools, store`connectAttempts
    ensures store.Valid()
    ensures store.openPools == old(store.openPools) && store.connectAttempts == old(store.connectAttempts) + 1
    ensures text == ListingText(if fault == Healthy then RowsOf(store.Customers()) else [])
  {
    var customers := store.GetCustomers(fault);
    if customers == [] {
      return NoCustomersMessage;
    }
    text := FormatBlocks("Customers:", customers);
  }

  /** get_customer: one repository call; the table is only read. */
  method GetCustomer(store: Store, id: int, fault: Fault) returns (text: string)
    requires store.Valid()
    modifies store`openPools, store`connectAttempts
    ensures store.Valid()
    ensures store.openPools == old(store.openPools) && store.connectAttempts == old(store.connectAttempts) + 1
    ensures text == CustomerText(id,
      if fault == Healthy && IsInt32(id) && id in store.rows then Some(AsRow(store.rows[id])) else None)
  {
    var customer := store.GetCustomerById(id, fault);
    text := CustomerText(id, customer);
  }

  /** create_customer (db_tools.py:48-72): an empty name or email is
      refused before any connection is attempted; otherwise one insert. */
  method CreateCustomer(store: Store, name: string, email: string, age: Option<int>, preferPackage: Option<int>,
                        now: Timestamp, fault: Fault)
    returns (text: string)
    requires store.Valid()
    modifies store
    ensures store.Valid() && store.openPools == old(store.openPools)
    ensures name == "" || email == "" ==> text == NameAndEmailRequiredMessage && unchanged(store)
    ensures name != "" && email != "" ==>
      var c := Customer(old(store.nextId), name, email, age, preferPackage, now);
      var accepted := InsertAccepted(fault, old(store.rows), old(store.nextId), email, age, preferPackage);
      && store.connectAttempts == old(store.connectAttempts) + 1
      && store.nextId == old(store.nextId) + (if SequenceAdvances(fault, old(store.nextId), age, preferPackage) then 1 else 0)
      && text == CreatedText(if accepted then Some(AsRow(c)) else None)
      && store.rows == (if accepted then old(store.rows)[c.id := c] else old(store.rows))
      && store.order == (if accepted then old(store.order) + [c.id] else old(store.order))
  {
    if name == "" || email == "" {
      return NameAndEmailRequiredMessage;
    }
    var customer := store.AddCustomer(name, email, age, preferPackage, now, fault);
    text := CreatedText(customer);
  }

  /** modify_customer (db_tools.py:74-99): an update with no truthy field
      is refused before any connection is attempted; otherwise the fields
      are passed on as given ("" and 0 included). */
  method ModifyCustomer(store: Store, id: int, changes: Changes, fault: Fault) returns (text: string)
    requires store.Valid()
    modifies store
    ensures store.Valid() && store.openPools == old(store.openPools)
    ensures !AnyFieldGiven(changes) ==> text == NoFieldsMessage && unchanged(store)
    ensures AnyFieldGiven(changes) ==>
      var accepted := UpdateAccepted(fault, old(store.rows), id, changes);
      && store.connectAttempts == old(store.connectAttempts) + 1
      && text == UpdatedText(id, if accepted then Some(AsRow(Merge(old(store.rows)[id], changes))) else None)
      && store.rows == (if accepted then old(store.rows)[id := Merge(old(store.rows)[id], changes)] else old(store.rows))
    ensures store.order == old(store.order) && store.nextId == old(store.nextId)
  {
    if !AnyFieldGiven(changes) {
      return NoFieldsMessage;
    }
    var customer := store.UpdateCustomer(id, changes, fault);
    text := UpdatedText(id, customer);
  }

  /** remove_customer: reports success whenever the DELETE ran, also for an
      id that was not there. */
  method RemoveCustomer(store: Store, id: int, fault: Fault) returns (text: string)
    requires store.Valid()
    modifies store
    ensures store.Valid() && store.openPools == old(store.openPools)
    ensures store.connectAttempts == old(store.connectAttempts) + 1
    ensures text == RemovalText(id, fault == Healthy && IsInt32(id))
    ensures store.rows == if fault == Healthy && IsInt32(id) then old(store.rows) - {id} else old(store.rows)
    ensures store.order == if fault == Healthy && IsInt32(id) then Without(old(store.order), id) else old(store.order)
    ensures store.nextId == old(store.nextId)
  {
    var deleted := store.DeleteCustomer(id, fault);
    text := RemovalText(id, deleted);
  }

  /** find_customers_by_name (db_tools.py:114-139): an empty name is
      refused before any connection is attempted; otherwise one search. */
  method FindCustomersByName(store: Store, name: string, fault: Fault) returns (text: string)
    requires store.Valid()
    modifies store`openPools, store`connectAttempts
    ensures store.Valid() && store.openPools == old(store.openPools)
    ensures name == "" ==> text == NameRequiredMessage && store.connectAttempts == old(store.connectAttempts)
    ensures name != "" ==>
      && store.connectAttempts == old(store.connectAttempts) + 1
      && text == MatchesText(name, if fault == Healthy then RowsOf(Matching(store.Customers(), name)) else [])
  {
    if name == "" {
      return NameRequiredMessage;
    }
    var customers := store.GetCustomerByName(name, fault);
    if customers == [] {
      return NoMatchesMessage(name);
    }
    text := FormatBlocks(MatchesHeading(|customers|, name), customers);
  }
}
