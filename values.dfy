/** The customer record and the values that travel between the store, the
    repository and the facade. */
module Values {
  import opened Text

  datatype Option<+T> = None | Some(value: T)

  /** Bounds of PostgreSQL's INTEGER, the type of every integer column of
      `customers` (create_tables.py:14,17,18). */
  const Int32Min: int := -0x8000_0000
  const Int32Max: int := 0x7fff_ffff

  predicate IsInt32(x: int)
  {
    Int32Min <= x <= Int32Max
  }

  /** A nullable INTEGER argument that the driver can send. */
  predicate FitsColumn(x: Option<int>)
  {
    x.None? || IsInt32(x.value)
  }

  /** The store-assigned `created_at`; only its printed form is kept. */
  datatype Timestamp = Timestamp(text: string)

  /** One row of `customers`: SERIAL id, NOT NULL name and email, nullable
      age and prefer_package, created_at set by the store. */
  datatype Customer = Customer(
    id: int,
    name: string,
    email: string,
    age: Option<int>,
    preferPackage: Option<int>,
    createdAt: Timestamp)

  /** What one field of a Python dict holds after dict(row). */
  datatype Value = Int(i: int) | Text(s: string) | Stamp(t: Timestamp) | Null

  /** dict(row): column name to value. */
  type Row = map<string, Value>

  /** The columns `SELECT *` and `RETURNING *` produce. */
  const Columns: set<string> := {"id", "name", "email", "age", "prefer_package", "created_at"}

  /** The outcome of talking to the store during one repository call: the
      pool can fail to open, or the query can raise once it is open. */
  datatype Fault = Healthy | PoolUnavailable | QueryError

  function Nullable(x: Option<int>): Value
  {
    if x.Some? then Int(x.value) else Null
  }

  /** dict(row) for a fetched customer row: every column is a key, and a
      NULL column is a key whose value is None. */
  function AsRow(c: Customer): (r: Row)
    ensures r.Keys == Columns
  {
    map["id" := Int(c.id), "name" := Text(c.name), "email" := Text(c.email),
        "age" := Nullable(c.age), "prefer_package" := Nullable(c.preferPackage),
        "created_at" := Stamp(c.createdAt)]
  }

  /** Python's str() of a field value; None prints as "None". */
  function Show(v: Value): string
  {
    match v
    case Int(i) => IntToString(i)
    case Text(s) => s
    case Stamp(t) => t.text
    case Null => "None"
  }
}
